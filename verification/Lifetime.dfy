/** Whole runs of the writer: many processes, each resetting and then replacing, any of which may die between two steps. */
module Lifetime {
  import opened Text
  import opened Grants
  import opened Canonical
  import opened DiskModel
  import opened SnapshotState
  import opened Publication
  import opened Datasets
  import opened Compression
  import opened CommandAuthorize

  // ----- What one activation grants -----

  /** A candidate's outcome is empty exactly when the activated snapshot holds a grant for its task. */
  lemma OutcomeIffGranted(now: int, cs: seq<Candidate>, lapsed: set<string>, canon: KeyReader, i: nat)
    requires i < |cs|
    ensures MarkLapsed(Outcomes(now, cs, canon), lapsed)[i].rejection.None? <==>
      exists g :: g in CanonicalGrants(Compiled(now, cs, lapsed, canon)) && g.taskUID == cs[i].taskUID
  {
    var grants := Compiled(now, cs, lapsed, canon);
    CompiledDistinct(now, cs, lapsed, canon);
    CanonicalMembers(grants);
    hide Verdict, CanonicalGrants, Compiled;
    if Verdict(now, cs, i, canon).Ok? {
      VerdictLease(now, cs, i, canon);
      CompiledMembers(now, cs, lapsed, canon, Verdict(now, cs, i, canon).value);
    }
    if g :| g in CanonicalGrants(grants) && g.taskUID == cs[i].taskUID {
      CompiledMembers(now, cs, lapsed, canon, g);
      var j :| 0 <= j < |cs| && Verdict(now, cs, j, canon) == Ok(g);
      VerdictLease(now, cs, j, canon);
    }
  }

  /** A UID seen with a passed expiry, in this call or before it, gets no grant and no acceptance. */
  lemma LapsedIsRefused(now: int, cs: seq<Candidate>, lapsed: set<string>, canon: KeyReader, uid: string)
    requires uid in lapsed + LapsedNow(now, cs)
    ensures forall g :: g in Compiled(now, cs, lapsed, canon) ==> g.taskUID != uid
    ensures forall i :: 0 <= i < |cs| && cs[i].taskUID == uid ==>
      MarkLapsed(Outcomes(now, cs, canon), lapsed)[i].rejection.Some?
  {
    hide Verdict, Compiled;
    forall g | g in Compiled(now, cs, lapsed, canon) ensures g.taskUID != uid {
      CompiledMembers(now, cs, lapsed, canon, g);
      var j :| 0 <= j < |cs| && Verdict(now, cs, j, canon) == Ok(g);
      VerdictLease(now, cs, j, canon);
      if uid !in lapsed {
        var i :| 0 <= i < |cs| && cs[i].taskUID == uid != "" && cs[i].expiresAt <= now;
        assert i != j ==> UidClaim(cs[i]) != UidClaim(cs[j]);
      }
    }
    forall i | 0 <= i < |cs| && cs[i].taskUID == uid
      ensures MarkLapsed(Outcomes(now, cs, canon), lapsed)[i].rejection.Some?
    {
      CompiledDistinct(now, cs, lapsed, canon);
      CanonicalMembers(Compiled(now, cs, lapsed, canon));
      OutcomeIffGranted(now, cs, lapsed, canon, i);
    }
  }

  /** Submitting the same candidates again in any order, at the same instant, asks for the same snapshot. */
  lemma ResubmissionKeepsIdentity(now: int, cs: seq<Candidate>, p: seq<nat>, q: seq<nat>, lapsed: set<string>, canon: KeyReader)
    requires Shuffle(p, q, |cs|)
    ensures CanonicalGrants(Compiled(now, Shuffled(cs, p), lapsed + LapsedNow(now, cs), canon))
      == CanonicalGrants(Compiled(now, cs, lapsed, canon))
  {
    var later := lapsed + LapsedNow(now, cs);
    var a, b := Compiled(now, cs, lapsed, canon), Compiled(now, Shuffled(cs, p), later, canon);
    CompiledDistinct(now, cs, lapsed, canon);
    CompiledDistinct(now, Shuffled(cs, p), later, canon);
    forall g ensures g in a <==> g in b {
      ActiveGrants(Accepted(now, cs, canon), lapsed);
      ActiveGrants(Accepted(now, Shuffled(cs, p), canon), later);
      ReorderedGrants(now, cs, p, q, g, canon);
      if g in a && g.taskUID in later {
        LapsedIsRefused(now, cs, lapsed, canon, g.taskUID);
      }
    }
    IdentityIsTheGrantSet(a, b);
  }

  method ReplaceTwice(m: Receiver, now: int, cs: seq<Candidate>, p: seq<nat>, ghost q: seq<nat>, canon: KeyReader)
    returns (first: Replacement, second: Replacement)
    requires m.Valid() && Shuffle(p, q, |cs|)
    modifies m, m.disk
    ensures m.Valid()
    ensures first.Replaced? && second.Replaced? ==> !second.activation.changed
  {
    ghost var lapsed := m.lapsed;
    first := m.Replace(now, cs, canon);
    second := m.Replace(now, Shuffled(cs, p), canon);
    ResubmissionKeepsIdentity(now, cs, p, q, lapsed, canon);
  }

  // ----- One process -----

  datatype Call = Call(now: int, candidates: seq<Candidate>)

  /** The UIDs that lapsed in the first n calls. */
  function LapsedBy(calls: seq<Call>, n: nat): (uids: set<string>)
    requires n <= |calls|
  {
    if n == 0 then {} else LapsedBy(calls, n - 1) + LapsedNow(calls[n - 1].now, calls[n - 1].candidates)
  }

  lemma {:induction false} LapsedByGrows(calls: seq<Call>, n: nat, m: nat)
    requires n <= m <= |calls|
    ensures LapsedBy(calls, n) <= LapsedBy(calls, m)
  {
    if n < m {
      LapsedByGrows(calls, n, m - 1);
    }
  }

  /** What one call came to: its result, and the snapshot published when it succeeded. */
  datatype Reply = Reply(result: Replacement, published: SnapshotId)

  /** Whatever lapsed in `earlier` is neither accepted in `call` nor granted in the snapshot it publishes. */
  ghost predicate Refuses(earlier: Call, call: Call, reply: Reply) {
    reply.result.Replaced? ==>
      && |reply.result.activation.outcomes| == |call.candidates|
      && (forall i :: 0 <= i < |call.candidates| && call.candidates[i].taskUID in LapsedNow(earlier.now, earlier.candidates) ==>
            reply.result.activation.outcomes[i].rejection.Some?)
      && forall g :: g in reply.published ==> g.taskUID !in LapsedNow(earlier.now, earlier.candidates)
  }

  /** In no later call, whatever clock it reads, is a lapsed UID accepted or granted. */
  ghost predicate LapseIsPermanent(calls: seq<Call>, replies: seq<Reply>)
    requires |replies| <= |calls|
  {
    forall k, m :: 0 <= k <= m < |replies| ==> Refuses(calls[k], calls[m], replies[m])
  }

  /** A successful reply is what the call compiles to, with the UIDs that lapsed before it. */
  predicate Compiles(call: Call, reply: Reply, lapsed: set<string>, canon: KeyReader) {
    reply.result.Replaced? ==>
      && reply.result.activation.outcomes == MarkLapsed(Outcomes(call.now, call.candidates, canon), lapsed)
      && reply.published == CanonicalGrants(Compiled(call.now, call.candidates, lapsed, canon))
  }

  lemma RefusesLapsed(earlier: Call, call: Call, reply: Reply, lapsed: set<string>, canon: KeyReader)
    requires Compiles(call, reply, lapsed, canon)
    requires LapsedNow(earlier.now, earlier.candidates) <= lapsed + LapsedNow(call.now, call.candidates)
    ensures Refuses(earlier, call, reply)
  {
    forall i | 0 <= i < |call.candidates| && call.candidates[i].taskUID in LapsedNow(earlier.now, earlier.candidates)
      ensures MarkLapsed(Outcomes(call.now, call.candidates, canon), lapsed)[i].rejection.Some?
    {
      LapsedIsRefused(call.now, call.candidates, lapsed, canon, call.candidates[i].taskUID);
    }
    var grants := Compiled(call.now, call.candidates, lapsed, canon);
    CompiledDistinct(call.now, call.candidates, lapsed, canon);
    CanonicalMembers(grants);
    forall g | g in CanonicalGrants(grants) ensures g.taskUID !in LapsedNow(earlier.now, earlier.candidates) {
      if g.taskUID in LapsedNow(earlier.now, earlier.candidates) {
        LapsedIsRefused(call.now, call.candidates, lapsed, canon, g.taskUID);
      }
    }
  }

  lemma LapsedSoFar(calls: seq<Call>, k: nat, m: nat)
    requires k <= m < |calls|
    ensures LapsedNow(calls[k].now, calls[k].candidates) <= LapsedBy(calls, m) + LapsedNow(calls[m].now, calls[m].candidates)
  {
    if k < m {
      LapsedByGrows(calls, k + 1, m);
    }
  }

  lemma LapseHolds(calls: seq<Call>, replies: seq<Reply>, reply: Reply, canon: KeyReader)
    requires |replies| < |calls| && LapseIsPermanent(calls, replies)
    requires Compiles(calls[|replies|], reply, LapsedBy(calls, |replies|), canon)
    ensures LapseIsPermanent(calls, replies + [reply])
  {
    hide Refuses, Compiles, LapsedBy, LapsedNow;
    var m := |replies|;
    forall k | 0 <= k <= m ensures Refuses(calls[k], calls[m], reply) {
      LapsedSoFar(calls, k, m);
      RefusesLapsed(calls[k], calls[m], reply, LapsedBy(calls, m), canon);
    }
  }

  /** The snapshots replied with were published: some state of the disk has each as its manifest. */
  ghost predicate WerePublished(states: seq<FileSystem>, replies: seq<Reply>) {
    forall n :: 0 <= n < |replies| && replies[n].result.Replaced? ==>
      exists k :: 0 <= k < |states| && Entry(states[k], ManifestPath) == Some(Published(replies[n].published))
  }

  lemma WerePublishedMore(states: seq<FileSystem>, more: seq<FileSystem>, replies: seq<Reply>, reply: Reply)
    requires WerePublished(states, replies) && states <= more && more != []
    requires reply.result.Replaced? ==> Entry(more[|more| - 1], ManifestPath) == Some(Published(reply.published))
    ensures WerePublished(more, replies + [reply])
  {
    forall n | 0 <= n < |replies| + 1 && (replies + [reply])[n].result.Replaced?
      ensures exists k :: 0 <= k < |more| && Entry(more[k], ManifestPath) == Some(Published((replies + [reply])[n].published))
    {
      if n < |replies| {
        var k :| 0 <= k < |states| && Entry(states[k], ManifestPath) == Some(Published(replies[n].published));
        assert more[k] == states[k];
      } else {
        assert Entry(more[|more| - 1], ManifestPath) == Some(Published(reply.published));
      }
    }
  }

  /** One call, and what is published after it. */
  method Answer(m: Receiver, call: Call, canon: KeyReader) returns (reply: Reply)
    requires m.Valid()
    modifies m, m.disk
    ensures m.Valid() && old(m.disk.history) <= m.disk.history
    ensures m.lapsed == old(m.lapsed) + LapsedNow(call.now, call.candidates)
    ensures Compiles(call, reply, old(m.lapsed), canon)
    ensures reply.result.Replaced? ==> Entry(m.disk.fs, ManifestPath) == Some(Published(reply.published))
  {
    var result := m.Replace(call.now, call.candidates, canon);
    assert Sound(m.disk.fs);
    reply := Reply(result, if result.Replaced? then Active(m.disk.fs) else []);
  }

  lemma NothingServed(calls: seq<Call>, states: seq<FileSystem>)
    ensures LapseIsPermanent(calls, []) && WerePublished(states, [])
  {
  }

  method Serve(m: Receiver, calls: seq<Call>, canon: KeyReader) returns (replies: seq<Reply>)
    requires m.Valid() && m.lapsed == {}
    modifies m, m.disk
    ensures m.Valid() && old(m.disk.history) <= m.disk.history
    ensures |replies| <= |calls| && LapseIsPermanent(calls, replies) && WerePublished(m.disk.history, replies)
    ensures !m.disk.faulty && !m.disk.stuck ==> |replies| == |calls|
  {
    hide LapseIsPermanent, WerePublished, Compiles, LapsedNow;
    replies := [];
    var reset := m.Reset();
    NothingServed(calls, m.disk.history);
    if !reset {
      return;
    }
    for n := 0 to |calls|
      invariant m.Valid() && old(m.disk.history) <= m.disk.history
      invariant |replies| == n && m.lapsed == LapsedBy(calls, n) && LapseIsPermanent(calls, replies)
      invariant WerePublished(m.disk.history, replies)
    {
      ghost var states := m.disk.history;
      var reply := Answer(m, calls[n], canon);
      LapseHolds(calls, replies, reply, canon);
      WerePublishedMore(states, m.disk.history, replies, reply);
      replies := replies + [reply];
    }
  }

  // ----- All processes -----

  /** Any number of processes over whatever sound directory they find, each of which may die in any state it went
      through. */
  method RunProcesses(disk: Disk, lives: seq<seq<Call>>, canon: KeyReader) returns (replies: seq<seq<Reply>>)
    requires disk.Valid() && AllSound(disk.history)
    modifies disk
    ensures disk.Valid() && old(disk.history) <= disk.history
    ensures forall k :: 0 <= k < |disk.history| ==> Sound(disk.history[k])
    ensures |replies| == |lives|
    ensures forall i :: 0 <= i < |lives| ==> |replies[i]| <= |lives[i]| && LapseIsPermanent(lives[i], replies[i])
    ensures !disk.faulty && !disk.stuck ==> forall i :: 0 <= i < |lives| ==> |replies[i]| == |lives[i]|
  {
    replies := [];
    for i := 0 to |lives|
      invariant disk.Valid() && AllSound(disk.history) && old(disk.history) <= disk.history
      invariant |replies| == i
      invariant forall j :: 0 <= j < i ==> |replies[j]| <= |lives[j]| && LapseIsPermanent(lives[j], replies[j])
      invariant !disk.faulty && !disk.stuck ==> forall j :: 0 <= j < i ==> |replies[j]| == |lives[j]|
    {
      var start := |disk.history|;
      var m := new Receiver(disk);
      var served := Serve(m, lives[i], canon);
      replies := replies + [served];
      if * {
        var k: nat :| start - 1 <= k < |disk.history|;
        disk.Crash(k);
      }
    }
  }

  /** The directory a first boot finds. */
  lemma EmptyIsSound()
    ensures Sound(map[])
  {
  }

  // ----- A half-removed generation blocks its own snapshot -----

  function AnyKey(raw: string): (key: Option<string>) {
    Some(raw)
  }

  const WITNESS := Candidate("u", "k", 1, [],
    CommandPolicy("t", true, true, false, false, false, false, false, "", "none"))

  lemma WitnessNames()
    ensures ValidDatasetName("t") && CompressionSupported("none")
  {
    assert ValidComponent("t");
    hide ValidComponent, ValidDatasetName;
    PathRoundTrip(["t"]);
  }

  lemma WitnessIsEligible()
    ensures Eligible(0, WITNESS, AnyKey)
  {
    WitnessNames();
    hide ValidDatasetName, CompressionSupported;
  }

  lemma WitnessIsAlone()
    ensures Alone([WITNESS], 0, AnyKey) && LapsedNow(0, [WITNESS]) == {} && LapsedNow(0, []) == {}
  {
  }

  lemma WitnessSnapshots()
    ensures CanonicalGrants(Compiled(0, [], {}, AnyKey)) == []
    ensures CanonicalGrants(Compiled(0, [WITNESS], {}, AnyKey)) == [GrantOf(WITNESS, "k")]
  {
    var g := GrantOf(WITNESS, "k");
    WitnessIsEligible();
    WitnessIsAlone();
    AcceptedExactly(0, [WITNESS], 0, AnyKey);
    hide Verdict, Eligible, Alone, GrantOf;
    assert AcceptedUpTo(0, [WITNESS], 0, AnyKey) == [];
    assert Accepted(0, [WITNESS], AnyKey) == [g];
    NothingLapsed([g]);
    NothingLapsed([]);
    assert CanonicalGrants([]) == [] && [g][1..] == [];
  }

  lemma OnlyTheFirst(fs: FileSystem, other: SnapshotId)
    requires NoOtherFinal(map[], fs, []) && other != []
    ensures !Obstructed(fs, other)
  {
  }

  lemma ActiveWhenPublished(fs: FileSystem, id: SnapshotId)
    requires Sound(fs) && Entry(fs, ManifestPath) == Some(Published(id))
    ensures ManifestPath in fs && Active(fs) == id
  {
  }

  lemma DifferentSnapshots(a: SnapshotId, b: SnapshotId)
    requires a != b
    ensures Published(a) != Published(b)
  {
    assert ManifestFor(a).header != ManifestFor(b).header;
  }

  /** On a disk where removing a tree stops after one path, and nothing else goes wrong: publish the empty snapshot, publish
      one with a grant, and ask for the empty one again. Its generation is half removed, and the request fails. */
  method HalfRemovedBlocks() returns (first: Replacement, second: Replacement, third: Replacement, disk: Disk)
    ensures first.Replaced? && second.Replaced? && third.ReplaceFailed?
  {
    EmptyIsSound();
    disk := new Disk(map[], false, true);
    assert disk.history[0] == map[];
    var m := new Receiver(disk);
    assert !Obstructed(map[], []);
    hide *;
    var snapshot := [GrantOf(WITNESS, "k")];
    WitnessSnapshots();
    WitnessIsAlone();
    first := m.Replace(0, [], AnyKey);
    m.ValidIsSound();
    OnlyTheFirst(disk.fs, snapshot);
    ActiveWhenPublished(disk.fs, []);
    DifferentSnapshots([], snapshot);
    second := m.Replace(0, [WITNESS], AnyKey);
    third := m.Replace(0, [], AnyKey);
  }
}
