/** Admission: a forced command reads the published snapshot while another process may be replacing it
    (internal/receiverauthorization/authorization.go).

    `states` is everything the file system goes through, oldest first. Each read looks at one state, no earlier than the
    read before it; between two reads any number of states may pass. */
module Admission {
  import opened Text
  import opened Grants
  import opened Canonical
  import opened DiskModel
  import opened SnapshotState
  import opened Publication
  import opened Datasets
  import opened Compression
  import SyncoidContract
  import opened CommandAuthorize
  import opened CommandSoundness
  import opened Lifetime

  /** What a manifest line's forced command carries. */
  datatype Reference = Reference(snapshot: SnapshotId, grant: GrantId)

  datatype AdmitError =
    | ReadFailed
    | NotActive
    | CopyMismatch
    | GrantUnreadable
    | GrantSetMismatch
    | GrantInvalid(reason: Rejection)
    | CommandMissing
    | Denied(denial: Denial)

  /** Nothing changes any more, and the snapshot is active. */
  ghost predicate AtRest(states: seq<FileSystem>, from: nat, snapshot: SnapshotId)
    requires from < |states| && AllSound(states)
  {
    from == |states| - 1 && ManifestPath in states[from] && Sound(states[from]) && Active(states[from]) == snapshot
  }

  function PolicyOf(now: int, g: Grant, canon: KeyReader): (r: Result<CommandPolicy, AdmitError>) {
    match GrantError(now, g, canon) case Some(e) => Err(GrantInvalid(e)) case None => Ok(g.policy)
  }

  /** One read, at some state from `from` on. */
  method Look(reliable: bool, states: seq<FileSystem>, from: nat, p: Path) returns (r: ReadResult, at: nat)
    requires from < |states|
    ensures from <= at < |states|
    ensures r.Found? ==> p in states[at] && states[at][p] == File(r.content)
    ensures r.NotExist? ==> p !in states[at]
    ensures r.Failed? ==> !reliable || (p in states[at] && states[at][p].Dir?)
  {
    at :| from <= at < |states|;
    var failing: bool := *;
    if failing && !reliable {
      return Failed, at;
    }
    var fs := states[at];
    r := if p !in fs then NotExist else if fs[p].File? then Found(fs[p].content) else Failed;
  }

  /** The manifest names the snapshot, and its generation holds an identical copy. */
  method RequireActiveSnapshot(reliable: bool, states: seq<FileSystem>, from: nat, expected: SnapshotId)
    returns (e: Option<AdmitError>, at: nat, next: nat)
    requires from < |states| && AllSound(states)
    ensures from <= at <= next < |states|
    ensures e.None? ==> ManifestPath in states[at] && Sound(states[at]) && Active(states[at]) == expected
    ensures AtRest(states, from, expected) ==>
      e.None? || (!reliable && e == Some(ReadFailed))
  {
    var read: ReadResult;
    read, at := Look(reliable, states, from, ManifestPath);
    next := at;
    assert Sound(states[at]);
    assert ManifestPath in states[at] ==> RightNode(ManifestPath, states[at][ManifestPath]);
    if !read.Found? || !read.content.ManifestText? {
      return Some(if read.Failed? then ReadFailed else NotActive), at, next;
    }
    if read.content.m.header != expected {
      return Some(NotActive), at, next;
    }
    var copy: ReadResult;
    copy, next := Look(reliable, states, next, GenerationManifest(Final(expected)));
    SoundMeans(states[at]);
    if copy != read {
      return Some(if copy.Failed? then ReadFailed else CopyMismatch), at, next;
    }
    return None, at, next;
  }

  /** In an active generation every listed entry is one of the snapshot's grants, under its own ID. */
  lemma ActiveEntry(fs: FileSystem, x: GrantId) returns (g: Grant)
    requires Sound(fs) && ManifestPath in fs && GrantFile(Final(Active(fs)), x) in fs
    ensures g in Active(fs) && IdOf(g) == x && fs[GrantFile(Final(Active(fs)), x)] == File(GrantText(g))
    ensures forall h :: h in Active(fs) && IdOf(h) == x ==> h == g
  {
    SoundMeans(fs);
    g :| g in Active(fs) && IdOf(g) == x;
    SortedIsDistinct(Active(fs));
  }

  ghost predicate FoundBetween(states: seq<FileSystem>, from: nat, to: nat, p: Path, content: Content) {
    exists k :: from <= k <= to < |states| && p in states[k] && states[k][p] == File(content)
  }

  ghost predicate ListsIds(fs: FileSystem, id: SnapshotId, ids: set<GrantId>) {
    forall x :: x in ids <==> GrantFile(Final(id), x) in fs
  }

  ghost predicate ListedBetween(states: seq<FileSystem>, from: nat, to: nat, id: SnapshotId, ids: set<GrantId>) {
    exists k :: from <= k <= to < |states| && ListsIds(states[k], id, ids)
  }

  /** Between the two reads the generation's directory once listed the IDs of exactly these grants, and the file of each
      once held it. */
  ghost predicate ReadBack(states: seq<FileSystem>, from: nat, to: nat, id: SnapshotId, grants: seq<Grant>) {
    && ListedBetween(states, from, to, id, set g | g in grants :: IdOf(g))
    && forall g :: g in grants ==> FoundBetween(states, from, to, GrantFile(Final(id), IdOf(g)), GrantText(g))
  }

  lemma FoundStill(states: seq<FileSystem>, from: nat, at: nat, to: nat, p: Path, content: Content)
    requires at <= to < |states| && FoundBetween(states, from, at, p, content)
    ensures FoundBetween(states, from, to, p, content)
  {
  }

  lemma FoundSince(states: seq<FileSystem>, from: nat, at: nat, to: nat, p: Path, content: Content)
    requires from <= at && FoundBetween(states, at, to, p, content)
    ensures FoundBetween(states, from, to, p, content)
  {
  }

  /** All the entries read make up the list. */
  lemma AllTaken(states: seq<FileSystem>, from: nat, at: nat, to: nat, id: SnapshotId, grants: seq<Grant>, entries: set<GrantId>)
    requires from <= at <= to < |states| && ListsIds(states[at], id, entries)
    requires forall x :: x in entries ==> exists g :: g in grants && IdOf(g) == x
    requires forall g :: g in grants ==> IdOf(g) in entries
    requires forall g :: g in grants ==> FoundBetween(states, from, to, GrantFile(Final(id), IdOf(g)), GrantText(g))
    ensures ReadBack(states, from, to, id, grants)
  {
    hide ListsIds, FoundBetween;
    assert (set g | g in grants :: IdOf(g)) == entries;
  }

  lemma ReadBackMembers(states: seq<FileSystem>, from: nat, to: nat, id: SnapshotId, grants: seq<Grant>, same: seq<Grant>)
    requires ReadBack(states, from, to, id, grants) && SameMembers(grants, same)
    ensures ReadBack(states, from, to, id, same)
  {
    hide ListedBetween, FoundBetween;
    assert (set g | g in grants :: IdOf(g)) == (set g | g in same :: IdOf(g));
  }

  method ReadGrant(reliable: bool, states: seq<FileSystem>, from: nat, id: SnapshotId, x: GrantId)
    returns (r: Result<Grant, AdmitError>, next: nat)
    requires from < |states| && AllSound(states)
    ensures from <= next < |states|
    ensures r.Ok? ==> IdOf(r.value) == x && FoundBetween(states, from, next, GrantFile(Final(id), x), GrantText(r.value))
    ensures AtRest(states, from, id) && GrantFile(Final(id), x) in states[from] ==>
      (!reliable && r == Err(ReadFailed)) || (r.Ok? && r.value in id && forall h :: h in id && IdOf(h) == x ==> h == r.value)
  {
    var read: ReadResult;
    read, next := Look(reliable, states, from, GrantFile(Final(id), x));
    if AtRest(states, from, id) && GrantFile(Final(id), x) in states[from] {
      var g := ActiveEntry(states[from], x);
    }
    if !read.Found? || !read.content.GrantText? || IdOf(read.content.g) != x {
      return Err(if read.Failed? then ReadFailed else GrantUnreadable), next;
    }
    return Ok(read.content.g), next;
  }

  /** The grants of the snapshot, except those with an ID still to be read. */
  ghost predicate Gathered(id: SnapshotId, grants: seq<Grant>, left: set<GrantId>) {
    && (forall g :: g in grants ==> g in id)
    && (forall g :: g in id ==> g in grants || IdOf(g) in left)
  }

  ghost predicate Taken(grants: seq<Grant>, entries: set<GrantId>, left: set<GrantId>) {
    && DistinctIds(grants)
    && (forall g :: g in grants ==> IdOf(g) in entries - left)
    && forall x :: x in entries - left ==> exists g :: g in grants && IdOf(g) == x
  }

  lemma TakenOneMore(grants: seq<Grant>, entries: set<GrantId>, left: set<GrantId>, g: Grant)
    requires Taken(grants, entries, left + {IdOf(g)}) && IdOf(g) in entries && IdOf(g) !in left
    ensures Taken(grants + [g], entries, left)
  {
    forall x | x in entries - left ensures exists h :: h in grants + [g] && IdOf(h) == x {
      if x == IdOf(g) {
        assert g in grants + [g];
      } else {
        assert x in entries - (left + {IdOf(g)});
        var h :| h in grants && IdOf(h) == x;
        assert h in grants + [g];
      }
    }
  }

  lemma TakenAll(grants: seq<Grant>, entries: set<GrantId>)
    requires Taken(grants, entries, {})
    ensures DistinctIds(grants)
    ensures forall g :: g in grants ==> IdOf(g) in entries
    ensures forall x :: x in entries ==> exists g :: g in grants && IdOf(g) == x
  {
    assert entries - {} == entries;
  }

  lemma GatheredOneMore(id: SnapshotId, grants: seq<Grant>, left: set<GrantId>, g: Grant)
    requires Gathered(id, grants, left + {IdOf(g)}) && g in id
    requires forall h :: h in id && IdOf(h) == IdOf(g) ==> h == g
    ensures Gathered(id, grants + [g], left)
  {
  }

  lemma GatheredAtFirst(fs: FileSystem, entries: set<GrantId>)
    requires Sound(fs) && ManifestPath in fs
    requires forall x :: GrantFile(Final(Active(fs)), x) in fs ==> x in entries
    ensures Gathered(Active(fs), [], entries)
  {
    SoundMeans(fs);
  }

  lemma GatheredAll(id: SnapshotId, grants: seq<Grant>)
    requires Gathered(id, grants, {})
    ensures SameMembers(grants, id)
  {
  }

  method ListGrants(states: seq<FileSystem>, from: nat, id: SnapshotId) returns (entries: set<GrantId>, at: nat)
    requires from < |states|
    ensures from <= at < |states|
    ensures forall x :: x in entries <==> GrantFile(Final(id), x) in states[at]
  {
    at :| from <= at < |states|;
    entries := set p | p in states[at] && p.GrantFile? && p.name == Final(id) :: p.grant;
    assert forall x :: GrantFile(Final(id), x) in states[at] ==> GrantFile(Final(id), x).grant in entries;
  }

  lemma StaysAtRest(states: seq<FileSystem>, at: nat, id: SnapshotId)
    requires at < |states| && AllSound(states) && AtRest(states, at, id)
    ensures at == |states| - 1
  {
  }

  /** Reads every grant in the directory, one file after another. */
  method ReadGenerationGrants(reliable: bool, states: seq<FileSystem>, from: nat, id: SnapshotId)
    returns (r: Result<seq<Grant>, AdmitError>, next: nat)
    requires from < |states| && AllSound(states)
    ensures from <= next < |states|
    ensures r.Ok? ==> DistinctIds(r.value) && ReadBack(states, from, next, id, r.value)
    ensures AtRest(states, from, id) ==> (!reliable && r == Err(ReadFailed)) || (r.Ok? && SameMembers(r.value, id))
  {
    var entries;
    entries, next := ListGrants(states, from, id);
    ghost var quiet := AtRest(states, from, id);
    var left, grants: seq<Grant> := entries, [];
    ghost var listedAt := next;
    assert ListsIds(states[listedAt], id, entries);
    if quiet {
      GatheredAtFirst(states[from], entries);
    }
    assert Taken(grants, entries, left);
    hide AtRest, Sound, AllRight, Active, AllSound, Gathered, DistinctIds, Taken, FoundBetween, ListsIds, ReadBack;
    while left != {}
      invariant left <= entries && from <= listedAt <= next < |states|
      invariant forall g :: g in grants ==> FoundBetween(states, from, next, GrantFile(Final(id), IdOf(g)), GrantText(g))
      invariant quiet ==> AtRest(states, next, id) && forall x :: x in left ==> GrantFile(Final(id), x) in states[next]
      invariant Taken(grants, entries, left)
      invariant quiet ==> Gathered(id, grants, left)
      decreases left
    {
      var x :| x in left;
      ghost var before := left;
      left := left - {x};
      assert before == left + {x};
      var read: Result<Grant, AdmitError>;
      if quiet {
        StaysAtRest(states, next, id);
      }
      ghost var here := next;
      read, next := ReadGrant(reliable, states, next, id, x);
      if read.Err? {
        return Err(read.error), next;
      }
      FoundSince(states, from, here, next, GrantFile(Final(id), x), GrantText(read.value));
      forall g | g in grants ensures FoundBetween(states, from, next, GrantFile(Final(id), IdOf(g)), GrantText(g)) {
        FoundStill(states, from, here, next, GrantFile(Final(id), IdOf(g)), GrantText(g));
      }
      TakenOneMore(grants, entries, left, read.value);
      if quiet {
        GatheredOneMore(id, grants, left, read.value);
      }
      grants := grants + [read.value];
    }
    if quiet {
      GatheredAll(id, grants);
    }
    TakenAll(grants, entries);
    AllTaken(states, from, listedAt, next, id, grants, entries);
    return Ok(grants), next;
  }

  method VerifySnapshotGrantSet(reliable: bool, states: seq<FileSystem>, from: nat, expected: SnapshotId)
    returns (e: Option<AdmitError>, next: nat)
    requires from < |states| && AllSound(states)
    ensures from <= next < |states|
    ensures e.None? ==> ReadBack(states, from, next, expected, expected)
    ensures AtRest(states, from, expected) ==> e.None? || (!reliable && e == Some(ReadFailed))
  {
    hide ReadBack;
    var read;
    read, next := ReadGenerationGrants(reliable, states, from, expected);
    if read.Err? {
      return Some(read.error), next;
    }
    if CanonicalGrants(read.value) != expected {
      CanonicalIsSorted(read.value);
      CanonicalMembers(read.value);
      if AtRest(states, from, expected) {
        SoundMeans(states[from]);
        SortedIsUnique(CanonicalGrants(read.value), expected);
      }
      return Some(GrantSetMismatch), next;
    }
    CanonicalMembers(read.value);
    ReadBackMembers(states, from, next, expected, read.value, expected);
    return None, next;
  }

  /** The policy of one grant, valid at `now`. */
  method ReadGrantPolicy(reliable: bool, states: seq<FileSystem>, from: nat, reference: Reference, now: int, canon: KeyReader)
    returns (r: Result<CommandPolicy, AdmitError>, next: nat)
    requires from < |states| && AllSound(states)
    ensures from <= next < |states|
    ensures r.Ok? ==> exists g ::
      g in reference.snapshot && IdOf(g) == reference.grant && g.policy == r.value && GrantError(now, g, canon).None?
    ensures AtRest(states, from, reference.snapshot) ==>
      forall g :: g in reference.snapshot && IdOf(g) == reference.grant ==>
        (!reliable && r == Err(ReadFailed)) || r == PolicyOf(now, g, canon)
  {
    var read: ReadResult;
    var p := GrantFile(Final(reference.snapshot), reference.grant);
    read, next := Look(reliable, states, from, p);
    var fs := states[next];
    assert Sound(fs);
    assert p in fs ==> RightNode(p, fs[p]);
    if ManifestPath in fs {
      SoundMeans(fs);
    }
    if !read.Found? || !read.content.GrantText? {
      return Err(if read.Failed? then ReadFailed else GrantUnreadable), next;
    }
    var g := read.content.g;
    if IdOf(g) != reference.grant {
      return Err(GrantUnreadable), next;
    }
    match GrantError(now, g, canon) {
      case Some(e) => return Err(GrantInvalid(e)), next;
      case None => return Ok(g.policy), next;
    }
  }

  predicate AdmittedUnder(g: Grant, command: string, now: int, plan: Plan) {
    && now < g.expiresAt <= now + MAXIMUM_LEASE_HORIZON
    && TrimSpace(command) != ""
    && Authorize(command, g.policy) == Ok(plan)
  }

  /** What a returned plan is worth: at the recheck the referenced snapshot was active, its one grant with the referenced
      ID was unexpired at the sampled instant, and the command was authorized under exactly that grant's policy. */
  ghost predicate Admitted(fs: FileSystem, reference: Reference, command: string, now: int, plan: Plan) {
    && Sound(fs) && ManifestPath in fs && Active(fs) == reference.snapshot
    && exists g :: g in reference.snapshot && IdOf(g) == reference.grant && AdmittedUnder(g, command, now, plan)
  }

  lemma ValidGrantLease(now: int, g: Grant, canon: KeyReader)
    requires GrantError(now, g, canon).None?
    ensures now < g.expiresAt <= now + MAXIMUM_LEASE_HORIZON
  {
    hide ValidDatasetName, CompressionSupported, SyncoidContract.ValidIdentifier;
  }

  /** With nothing changing, the answer is the authorizer's. */
  function AuthorizersAnswer(command: string, g: Grant): (r: Result<Plan, AdmitError>) {
    if TrimSpace(command) == "" then Err(CommandMissing)
    else match Authorize(command, g.policy)
      case Err(denial) => Err(Denied(denial))
      case Ok(plan) => Ok(plan)
  }

  method Admit(reliable: bool, states: seq<FileSystem>, start: nat, reference: Reference, command: string, now: int, canon: KeyReader)
    returns (r: Result<Plan, AdmitError>, recheck: nat)
    requires start < |states| && AllSound(states)
    ensures r.Ok? ==> start <= recheck < |states| && Admitted(states[recheck], reference, command, now, r.value)
    ensures AtRest(states, start, reference.snapshot) ==>
      forall g :: g in reference.snapshot && IdOf(g) == reference.grant && GrantError(now, g, canon).None? ==>
        (!reliable && r == Err(ReadFailed)) || r == AuthorizersAnswer(command, g)
  {
    hide Sound, AllRight, Active, Authorize, GrantError, TrimSpace, CanonicalGrants;
    recheck := start;
    var e, at, next := RequireActiveSnapshot(reliable, states, start, reference.snapshot);
    if e.Some? {
      return Err(e.value), recheck;
    }
    e, next := VerifySnapshotGrantSet(reliable, states, next, reference.snapshot);
    if e.Some? {
      return Err(e.value), recheck;
    }
    var policy;
    policy, next := ReadGrantPolicy(reliable, states, next, reference, now, canon);
    if policy.Err? {
      return Err(policy.error), recheck;
    }
    ghost var g :|
      g in reference.snapshot && IdOf(g) == reference.grant && g.policy == policy.value && GrantError(now, g, canon).None?;
    ValidGrantLease(now, g, canon);
    if TrimSpace(command) == "" {
      return Err(CommandMissing), recheck;
    }
    var plan := AuthorizeReceiverCommand(command, policy.value);
    if plan.Err? {
      return Err(Denied(plan.error)), recheck;
    }
    e, recheck, next := RequireActiveSnapshot(reliable, states, next, reference.snapshot);
    if e.Some? {
      return Err(e.value), recheck;
    }
    return Ok(plan.value), recheck;
  }

  /** The same against any run of writer processes, crashes included, from any sound directory: the reader starts and reads
      at any moments of it. */
  method AdmitDuringRun(disk: Disk, lives: seq<seq<Call>>, reference: Reference, command: string, now: int, canon: KeyReader)
    returns (r: Result<Plan, AdmitError>, recheck: nat)
    requires disk.Valid() && AllSound(disk.history)
    modifies disk
    ensures disk.Valid() && old(disk.history) <= disk.history
    ensures r.Ok? ==> recheck < |disk.history| && Admitted(disk.history[recheck], reference, command, now, r.value)
  {
    var replies := RunProcesses(disk, lives, canon);
    assert AllSound(disk.history);
    var start: nat :| start < |disk.history|;
    r, recheck := Admit(false, disk.history, start, reference, command, now, canon);
  }

  /** An admitted plan does nothing that the active snapshot's grant does not license. */
  lemma AdmittedIsLicensed(fs: FileSystem, reference: Reference, command: string, now: int, plan: Plan)
    requires Admitted(fs, reference, command, now, plan)
    ensures exists g :: g in Active(fs) && IdOf(g) == reference.grant && PlanShape(plan) && PlanLicensed(plan, g.policy)
    ensures forall g, h :: g in Active(fs) && h in Active(fs) && IdOf(g) == IdOf(h) ==> g == h
  {
    SoundMeans(fs);
    SortedIsDistinct(Active(fs));
    var g :| g in reference.snapshot && IdOf(g) == reference.grant && AdmittedUnder(g, command, now, plan);
    AdmittedPlansAreLicensed(command, g.policy);
  }
}
