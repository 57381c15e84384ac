/** The one writer: resetting and replacing the Receiver Authorization Snapshot
    (internal/receiverauthorization/snapshot.go). */
module Publication {
  import opened Text
  import opened Grants
  import opened Canonical
  import opened DiskModel
  import opened SnapshotState

  // ----- What a run of steps did to the disk -----

  ghost predicate AllSound(states: seq<FileSystem>) {
    forall k :: 0 <= k < |states| ==> Sound(states[k])
  }

  function Entry(fs: FileSystem, p: Path): (node: Option<Node>) {
    if p in fs then Some(fs[p]) else None
  }

  /** From state `from` on, the manifest is what it is in `fs`. */
  ghost predicate KeepsManifest(states: seq<FileSystem>, from: nat, fs: FileSystem) {
    forall k :: from <= k < |states| ==> Entry(states[k], ManifestPath) == Entry(fs, ManifestPath)
  }

  /** From history `h` and its last state `fs` to history `later`: every state sound, the manifest untouched. */
  ghost predicate Quiet(h: seq<FileSystem>, fs: FileSystem, later: seq<FileSystem>) {
    h <= later && AllSound(later) && KeepsManifest(later, |h|, fs)
  }

  lemma QuietThen(h: seq<FileSystem>, fs: FileSystem, i: seq<FileSystem>, gs: FileSystem, j: seq<FileSystem>)
    requires Quiet(h, fs, i) && Quiet(i, gs, j) && Entry(gs, ManifestPath) == Entry(fs, ManifestPath)
    ensures Quiet(h, fs, j)
  {
    forall k | |h| <= k < |j| ensures Entry(j[k], ManifestPath) == Entry(fs, ManifestPath) {
      if k < |i| {
        assert j[k] == i[k];
      }
    }
  }

  lemma QuietStep(h: seq<FileSystem>, fs: FileSystem, i: seq<FileSystem>, next: FileSystem)
    requires Quiet(h, fs, i) && Sound(next) && Entry(next, ManifestPath) == Entry(fs, ManifestPath)
    ensures Quiet(h, fs, i + [next])
  {
  }

  function Published(id: SnapshotId): (node: Node) {
    File(ManifestText(ManifestFor(id)))
  }

  ghost predicate SwitchedAt(h: seq<FileSystem>, fs: FileSystem, later: seq<FileSystem>, id: SnapshotId, s: nat) {
    && |h| <= s <= |later|
    && forall k :: |h| <= k < |later| ==>
         Entry(later[k], ManifestPath) == if k < s then Entry(fs, ManifestPath) else Some(Published(id))
  }

  /** Every state sound; the manifest is what it was until some instant, and `id`'s from then on. */
  ghost predicate Switched(h: seq<FileSystem>, fs: FileSystem, later: seq<FileSystem>, id: SnapshotId) {
    h <= later && AllSound(later) && exists s :: SwitchedAt(h, fs, later, id, s)
  }

  lemma SwitchedBy(h: seq<FileSystem>, fs: FileSystem, i: seq<FileSystem>, next: FileSystem, id: SnapshotId)
    requires Quiet(h, fs, i) && Sound(next) && Entry(next, ManifestPath) == Some(Published(id))
    ensures Switched(h, fs, i + [next], id)
  {
    assert SwitchedAt(h, fs, i + [next], id, |i|);
  }

  lemma SwitchedAlready(h: seq<FileSystem>, fs: FileSystem, i: seq<FileSystem>, id: SnapshotId)
    requires Quiet(h, fs, i) && Entry(fs, ManifestPath) == Some(Published(id))
    ensures Switched(h, fs, i, id)
  {
    assert SwitchedAt(h, fs, i, id, |i|);
  }

  lemma SwitchedAfter(h: seq<FileSystem>, fs: FileSystem, i: seq<FileSystem>, gs: FileSystem, j: seq<FileSystem>, id: SnapshotId)
    requires Quiet(h, fs, i) && Switched(i, gs, j, id) && Entry(gs, ManifestPath) == Entry(fs, ManifestPath)
    ensures Switched(h, fs, j, id)
  {
    var s :| SwitchedAt(i, gs, j, id, s);
    assert forall k :: |h| <= k < |i| ==> j[k] == i[k];
    assert SwitchedAt(h, fs, j, id, s);
  }

  lemma SwitchedThen(h: seq<FileSystem>, fs: FileSystem, i: seq<FileSystem>, gs: FileSystem, j: seq<FileSystem>, id: SnapshotId)
    requires Switched(h, fs, i, id) && Quiet(i, gs, j) && Entry(gs, ManifestPath) == Some(Published(id))
    ensures Switched(h, fs, j, id)
  {
    var s :| SwitchedAt(h, fs, i, id, s);
    assert forall k :: |h| <= k < |i| ==> j[k] == i[k];
    assert SwitchedAt(h, fs, j, id, s);
  }

  /** While the manifest stays, so does every path of the generation it names. */
  lemma ActiveGenerationStays(a: FileSystem, b: FileSystem, p: Path)
    requires Sound(a) && Sound(b) && ManifestPath in a && Entry(a, ManifestPath) == Entry(b, ManifestPath)
    requires p in a && HasName(p, Final(Active(a)))
    ensures p in b && b[p] == a[p]
  {
    SoundMeans(a);
    SoundMeans(b);
    assert RightNode(p, a[p]);
    if p in b {
      assert RightNode(p, b[p]);
    }
  }

  datatype Failure =
    | RuntimeDirectoryFailed
    | ManifestUnreadable
    | ManifestMismatch
    | GenerationInvalid
    | StagingFailed
    | CommitFailed
    | RemoveFailed

  /** A snapshot read back from the disk. */
  datatype ActiveRead = ActiveManifest(id: SnapshotId, manifest: Manifest) | NoManifest | BadManifest

  datatype Activation = Activation(changed: bool, warning: bool, nextDeadline: Option<int>, outcomes: seq<Outcome>)

  datatype Replacement = Replaced(activation: Activation) | ReplaceFailed(cause: Failure, activeAuthorityUsable: bool)

  // ----- Lapses -----

  function LapsedNow(now: int, cs: seq<Candidate>): (uids: set<string>)
    ensures forall uid :: uid in uids <==> exists i :: 0 <= i < |cs| && cs[i].taskUID == uid != "" && cs[i].expiresAt <= now
  {
    set i | 0 <= i < |cs| && cs[i].taskUID != "" && cs[i].expiresAt <= now :: cs[i].taskUID
  }

  function WithoutLapsed(grants: seq<Grant>, lapsed: set<string>): (active: seq<Grant>) {
    if grants == [] then []
    else (if grants[0].taskUID in lapsed then [] else [grants[0]]) + WithoutLapsed(grants[1..], lapsed)
  }

  function MarkLapsed(outcomes: seq<Outcome>, lapsed: set<string>): (marked: seq<Outcome>)
    ensures |marked| == |outcomes|
    ensures forall i :: 0 <= i < |outcomes| ==>
      marked[i] == if outcomes[i].taskUID in lapsed then outcomes[i].(rejection := Some(LeaseLapsed)) else outcomes[i]
  {
    seq(|outcomes|, i requires 0 <= i < |outcomes| =>
      if outcomes[i].taskUID in lapsed then outcomes[i].(rejection := Some(LeaseLapsed)) else outcomes[i])
  }

  /** The grants a Replace call would activate. */
  function Compiled(now: int, cs: seq<Candidate>, lapsed: set<string>, canon: KeyReader): (grants: seq<Grant>) {
    WithoutLapsed(Accepted(now, cs, canon), lapsed)
  }

  function Deadline(grants: seq<Grant>): (next: Option<int>)
    ensures next.None? <==> grants == []
    ensures next.Some? ==> exists g :: g in grants && g.expiresAt == next.value
    ensures next.Some? ==> forall g :: g in grants ==> next.value <= g.expiresAt
  {
    if grants == [] then None
    else
      var first, rest := grants[0].expiresAt, Deadline(grants[1..]);
      assert grants == [grants[0]] + grants[1..];
      if rest.None? || first <= rest.value then Some(first) else rest
  }

  lemma {:induction false} ActiveGrants(grants: seq<Grant>, lapsed: set<string>)
    ensures forall g :: g in WithoutLapsed(grants, lapsed) <==> g in grants && g.taskUID !in lapsed
    ensures DistinctIds(grants) ==> DistinctIds(WithoutLapsed(grants, lapsed))
  {
    if grants != [] {
      ActiveGrants(grants[1..], lapsed);
      assert grants == [grants[0]] + grants[1..];
      var rest := WithoutLapsed(grants[1..], lapsed);
      if DistinctIds(grants) {
        assert forall g :: g in rest ==> IdOf(g) != IdOf(grants[0]);
        assert DistinctIds(grants[1..]);
      }
    }
  }

  /** A generation of this name is there, and something of it is missing. */
  predicate Obstructed(fs: FileSystem, id: SnapshotId) {
    Generation(Final(id)) in fs && !Complete(fs, id)
  }

  lemma SameGeneration(a: FileSystem, b: FileSystem, id: SnapshotId)
    requires forall q :: q != RuntimeRoot && q != GenerationsRoot ==> Entry(b, q) == Entry(a, q)
    ensures Complete(b, id) <==> Complete(a, id)
    ensures Obstructed(b, id) <==> Obstructed(a, id)
  {
    assert forall q :: q != RuntimeRoot && q != GenerationsRoot ==> (q in a <==> q in b) by {
      forall q | q != RuntimeRoot && q != GenerationsRoot ensures q in a <==> q in b {
        assert Entry(b, q) == Entry(a, q);
      }
    }
  }

  /** One step into a complete generation leaves it there, and incomplete; other generations are as they were. */
  lemma HalfRemoved(a: FileSystem, b: FileSystem, name: Name, id: SnapshotId)
    requires Sound(a) && Complete(a, id)
    requires Shrunk(a, b, OneGeneration(name)) && OneStep(a, b, OneGeneration(name))
    ensures if Final(id) == name then Obstructed(b, id) else Complete(b, id)
  {
    if Final(id) == name {
      assert GrantsDir(name) in a && Parent(GrantsDir(name)) == Some(Generation(name));
      assert !Leaf(Generation(name), a);
      assert HasName(Generation(name), name);
      var p :| p in a && HasName(p, name) && p !in b;
      assert RightNode(p, a[p]);
      assert p.GrantFile? ==> p == GrantFile(Final(id), IdOf(a[p].content.g)) && a[p].content.g in id;
    } else {
      assert forall g :: g in id ==> GrantFile(Final(id), IdOf(g)) in a;
    }
  }

  /** No generation is published but, at most, the one wanted. */
  ghost predicate NoOtherFinal(a: FileSystem, b: FileSystem, id: SnapshotId) {
    forall x :: Generation(Final(x)) in b ==> x == id || Generation(Final(x)) in a
  }

  /** The commit touches no generation. */
  lemma FinalsFramed(a: FileSystem, b: FileSystem, c: FileSystem, id: SnapshotId)
    requires NoOtherFinal(a, b, id)
    requires forall q: Path :: q != ManifestPath && !q.ManifestTemp? ==> Entry(c, q) == Entry(b, q)
    ensures NoOtherFinal(a, c, id)
  {
    forall x | Generation(Final(x)) in c ensures x == id || Generation(Final(x)) in a {
      assert Entry(c, Generation(Final(x))) == Entry(b, Generation(Final(x)));
    }
  }

  lemma StillComplete(a: FileSystem, b: FileSystem, id: SnapshotId)
    requires Complete(a, id)
    requires forall q: Path :: q != ManifestPath && !q.ManifestTemp? ==> Entry(b, q) == Entry(a, q)
    ensures Complete(b, id)
  {
    assert Entry(b, Generation(Final(id))) == Entry(a, Generation(Final(id)));
    assert Entry(b, GrantsDir(Final(id))) == Entry(a, GrantsDir(Final(id)));
    assert Entry(b, GenerationManifest(Final(id))) == Entry(a, GenerationManifest(Final(id)));
    forall g | g in id ensures GrantFile(Final(id), IdOf(g)) in b {
      assert Entry(b, GrantFile(Final(id), IdOf(g))) == Entry(a, GrantFile(Final(id), IdOf(g)));
    }
  }

  lemma SameFinals(a: FileSystem, b: FileSystem)
    requires forall q :: q != RuntimeRoot && q != GenerationsRoot ==> Entry(b, q) == Entry(a, q)
    ensures forall id :: NoOtherFinal(a, b, id)
  {
    forall x | Generation(Final(x)) in b ensures Generation(Final(x)) in a {
      assert Entry(b, Generation(Final(x))) == Entry(a, Generation(Final(x)));
    }
  }

  lemma CompleteWhenActive(a: FileSystem, b: FileSystem, id: SnapshotId)
    requires Sound(b) && ManifestPath in b && Active(b) == id && Entry(b, ManifestPath) == Entry(a, ManifestPath)
    requires Obstructed(b, id) <==> Obstructed(a, id)
    ensures !Obstructed(a, id) && Entry(a, ManifestPath) == Some(Published(id))
  {
    SoundMeans(b);
  }

  lemma ManifestDiffers(a: FileSystem, b: FileSystem, active: ActiveRead, id: SnapshotId)
    requires Sound(a) && Sound(b) && Entry(b, ManifestPath) == Entry(a, ManifestPath)
    requires active.NoManifest? ==> ManifestPath !in b
    requires active.ActiveManifest? ==>
      ManifestPath in b && b[ManifestPath] == File(ManifestText(active.manifest)) && active.id == active.manifest.header != id
    requires !active.BadManifest?
    ensures Entry(a, ManifestPath) != Some(Published(id))
    ensures ManifestPath in b ==> Active(b) != id
    ensures ManifestPath in a ==> ManifestPath in b && Active(a) == Active(b)
  {
  }

  lemma ActiveIs(fs: FileSystem, active: ActiveRead)
    requires Sound(fs) && ManifestPath in fs && active.ActiveManifest?
    requires fs[ManifestPath] == File(ManifestText(active.manifest)) && active.id == active.manifest.header
    ensures Active(fs) == active.id
  {
  }

  lemma NoOtherThen(a: FileSystem, b: FileSystem, c: FileSystem, id: SnapshotId)
    requires NoOtherFinal(a, b, id) && NoOtherFinal(b, c, id)
    ensures NoOtherFinal(a, c, id)
  {
  }

  lemma QuietExtends(h: seq<FileSystem>, fs: FileSystem, later: seq<FileSystem>)
    requires Quiet(h, fs, later)
    ensures h <= later && AllSound(later)
  {
  }

  lemma {:induction false} Unused(used: set<nat>) returns (n: nat)
    ensures forall m :: m in used ==> m < n
  {
    if used == {} {
      n := 0;
    } else {
      var m :| m in used;
      var rest := Unused(used - {m});
      assert forall k :: k in used <==> k == m || k in used - {m};
      n := if m < rest then rest else m + 1;
    }
  }

  /** os.MkdirTemp and os.CreateTemp pick a name that is not taken. */
  method FreshStaging(fs: FileSystem) returns (n: nat)
    ensures Generation(Staging(n)) !in fs
  {
    var used := set p | p in fs && p.Generation? && p.name.Staging? :: p.name.n;
    forall k: nat | Generation(Staging(k)) in fs ensures k in used {
      assert Generation(Staging(k)).name.n == k;
    }
    ghost var free := Unused(used);
    assert Generation(Staging(free)) !in fs;
    n :| Generation(Staging(n)) !in fs;
  }

  method FreshTemporary(fs: FileSystem) returns (n: nat)
    ensures ManifestTemp(n) !in fs
  {
    var used := set p | p in fs && p.ManifestTemp? :: p.n;
    forall k: nat | ManifestTemp(k) in fs ensures k in used {
      assert ManifestTemp(k).n == k;
    }
    ghost var free := Unused(used);
    assert ManifestTemp(free) !in fs;
    n :| ManifestTemp(n) !in fs;
  }

  lemma StoredGrantRight(fs: FileSystem, name: Name, x: GrantId)
    requires Sound(fs) && GrantFile(name, x) in fs
    ensures fs[GrantFile(name, x)].File?
    ensures name.Final? ==> fs[GrantFile(name, x)].content.GrantText? && IdOf(fs[GrantFile(name, x)].content.g) == x
  {
    assert RightNode(GrantFile(name, x), fs[GrantFile(name, x)]);
  }

  /** All that is stored in a complete generation is the snapshot it is named after. */
  lemma CompleteIsWhole(fs: FileSystem, id: SnapshotId, stored: seq<Grant>)
    requires Sound(fs) && Complete(fs, id) && Sorted(id) && DistinctIds(stored)
    requires forall g :: g in stored ==>
      GrantFile(Final(id), IdOf(g)) in fs && fs[GrantFile(Final(id), IdOf(g))] == File(GrantText(g))
    requires forall x :: GrantFile(Final(id), x) in fs ==> exists g :: g in stored && IdOf(g) == x
    ensures CanonicalGrants(stored) == id
  {
    SortedIsDistinct(id);
    forall g ensures g in stored <==> g in id {
      var p := GrantFile(Final(id), IdOf(g));
      assert p in fs ==> RightNode(p, fs[p]);
      if g in id {
        var h :| h in stored && IdOf(h) == IdOf(g);
      }
    }
    CanonicalIsSorted(stored);
    CanonicalMembers(stored);
    SortedIsUnique(CanonicalGrants(stored), id);
  }

  method RejectLapsed(candidates: seq<Candidate>, outcomes: seq<Outcome>, previous: set<string>) returns (marked: seq<Outcome>)
    requires |outcomes| == |candidates| && forall i :: 0 <= i < |outcomes| ==> outcomes[i].taskUID == candidates[i].taskUID
    ensures marked == MarkLapsed(outcomes, previous)
  {
    marked := outcomes;
    for i := 0 to |candidates|
      invariant |marked| == |outcomes|
      invariant forall j :: 0 <= j < |outcomes| ==> marked[j] == if j < i then MarkLapsed(outcomes, previous)[j] else outcomes[j]
    {
      if candidates[i].taskUID in previous {
        marked := marked[i := marked[i].(rejection := Some(LeaseLapsed))];
      }
    }
  }

  lemma {:induction false} WithoutLapsedSnoc(grants: seq<Grant>, g: Grant, lapsed: set<string>)
    ensures WithoutLapsed(grants + [g], lapsed) == WithoutLapsed(grants, lapsed) + if g.taskUID in lapsed then [] else [g]
  {
    if grants == [] {
      assert ([] + [g])[1..] == [];
    } else {
      WithoutLapsedSnoc(grants[1..], g, lapsed);
      assert (grants + [g])[1..] == grants[1..] + [g];
    }
  }

  /** Keeps the grants that have not lapsed, compacting the array in place. */
  method FilterInPlace(grants: array<Grant>, lapsed: set<string>) returns (n: nat)
    modifies grants
    ensures n <= grants.Length && grants[..n] == WithoutLapsed(old(grants[..]), lapsed)
  {
    n := 0;
    for i := 0 to grants.Length
      invariant n <= i && grants[..n] == WithoutLapsed(old(grants[..i]), lapsed)
      invariant forall j :: i <= j < grants.Length ==> grants[j] == old(grants[j])
    {
      assert old(grants[..i + 1]) == old(grants[..i]) + [old(grants[i])];
      WithoutLapsedSnoc(old(grants[..i]), old(grants[i]), lapsed);
      if grants[i].taskUID !in lapsed {
        grants[n] := grants[i];
        n := n + 1;
      }
    }
    assert old(grants[..grants.Length]) == old(grants[..]);
  }

  method RemoveLapsedGrants(grants: seq<Grant>, lapsed: set<string>) returns (active: seq<Grant>)
    ensures active == WithoutLapsed(grants, lapsed)
  {
    var buffer := new Grant[|grants|](i requires 0 <= i < |grants| => grants[i]);
    assert buffer[..] == grants;
    var n := FilterInPlace(buffer, lapsed);
    active := buffer[..n];
  }

  lemma {:induction false} NothingLapsed(grants: seq<Grant>)
    ensures WithoutLapsed(grants, {}) == grants
  {
    if grants != [] {
      NothingLapsed(grants[1..]);
    }
  }

  method NextLeaseDeadline(grants: seq<Grant>) returns (next: Option<int>)
    ensures next == Deadline(grants)
  {
    hide Deadline;
    next := None;
    for i := 0 to |grants|
      invariant next.None? <==> i == 0
      invariant next.Some? ==> exists j :: 0 <= j < i && grants[j].expiresAt == next.value
      invariant next.Some? ==> forall j :: 0 <= j < i ==> next.value <= grants[j].expiresAt
    {
      if next.None? || grants[i].expiresAt < next.value {
        next := Some(grants[i].expiresAt);
      }
    }
    if next.Some? {
      var j :| 0 <= j < |grants| && grants[j].expiresAt == next.value;
      assert grants[j] in grants;
      var g :| g in grants && g.expiresAt == Deadline(grants).value;
    }
  }

  lemma StagedOneMore(a: FileSystem, b: FileSystem, n: nat, id: SnapshotId, k: nat)
    requires k < |id| && Sorted(id) && StagedGrants(a, n, id, k)
    requires b == a[GrantFile(Staging(n), IdOf(id[k])) := File(GrantText(id[k]))]
    ensures StagedGrants(b, n, id, k + 1)
  {
    forall x | GrantFile(Staging(n), x) in b
      ensures exists j :: 0 <= j < k + 1 && IdOf(id[j]) == x && b[GrantFile(Staging(n), x)] == File(GrantText(id[j]))
    {
      if x != IdOf(id[k]) {
        var j :| 0 <= j < k && IdOf(id[j]) == x && a[GrantFile(Staging(n), x)] == File(GrantText(id[j]));
      }
    }
  }

  lemma CompiledMembers(now: int, cs: seq<Candidate>, lapsed: set<string>, canon: KeyReader, g: Grant)
    ensures g in Compiled(now, cs, lapsed, canon) <==>
      g.taskUID !in lapsed && exists i :: 0 <= i < |cs| && Verdict(now, cs, i, canon) == Ok(g)
  {
    ActiveGrants(Accepted(now, cs, canon), lapsed);
    AcceptedMembers(now, cs, |cs|, canon, g);
  }

  lemma CompiledDistinct(now: int, cs: seq<Candidate>, lapsed: set<string>, canon: KeyReader)
    ensures DistinctIds(Compiled(now, cs, lapsed, canon))
  {
    AcceptedDistinct(now, cs, |cs|, canon);
    ActiveGrants(Accepted(now, cs, canon), lapsed);
  }

  // ----- What a publication means for the candidates -----

  /** Exactly the candidates that stand on their own, share nothing and have not lapsed are accepted; a lapsed one is told so. */
  ghost predicate Settled(now: int, cs: seq<Candidate>, lapsed: set<string>, canon: KeyReader, outcomes: seq<Outcome>) {
    && |outcomes| == |cs|
    && forall i :: 0 <= i < |cs| ==>
         && outcomes[i].taskUID == cs[i].taskUID
         && (AcceptedAt(outcomes, i) <==> Eligible(now, cs[i], canon) && Alone(cs, i, canon) && cs[i].taskUID !in lapsed)
         && (cs[i].taskUID in lapsed ==> outcomes[i].rejection == Some(LeaseLapsed))
  }

  lemma OutcomesAreSettled(now: int, cs: seq<Candidate>, lapsed: set<string>, canon: KeyReader)
    ensures Settled(now, cs, lapsed, canon, MarkLapsed(Outcomes(now, cs, canon), lapsed))
  {
    CompiledAsMeant(now, cs, canon);
    hide Eligible, Alone, Verdict;
  }

  /** The line admits the candidate's key to its own task's grant of the snapshot, until the second of its deadline begins. */
  ghost predicate LineOf(line: Line, c: Candidate, snapshot: SnapshotId, canon: KeyReader) {
    && canon(c.authorizedPublicKey) == Some(line.publicKey) && line.grant == c.taskUID && line.snapshot == snapshot
    && (forall now :: SshdAccepts(line.expiry, now) <==> now < c.expiresAt / 1_000_000_000 * 1_000_000_000)
    && forall now :: SshdAccepts(line.expiry, now) ==> now < c.expiresAt
  }

  /** The lines and the accepted candidates correspond one to one. */
  ghost predicate LinesFor(m: Manifest, cs: seq<Candidate>, outcomes: seq<Outcome>, canon: KeyReader)
    requires |outcomes| == |cs|
  {
    && DistinctLines(m)
    && (forall line :: line in m.lines ==> exists i :: AcceptedAt(outcomes, i) && LineOf(line, cs[i], m.header, canon))
    && forall i :: AcceptedAt(outcomes, i) ==> exists line :: line in m.lines && LineOf(line, cs[i], m.header, canon)
  }

  /** The grant files of the snapshot and the accepted candidates correspond one to one. */
  ghost predicate FilesFor(fs: FileSystem, id: SnapshotId, cs: seq<Candidate>, outcomes: seq<Outcome>, canon: KeyReader)
    requires |outcomes| == |cs|
  {
    && (forall i :: AcceptedAt(outcomes, i) ==>
          exists g :: Entry(fs, GrantFile(Final(id), cs[i].taskUID)) == Some(File(GrantText(g))) && Speaks(g, cs[i], canon))
    && forall uid :: GrantFile(Final(id), uid) in fs ==> exists i :: AcceptedAt(outcomes, i) && cs[i].taskUID == uid
  }

  /** What sshd and a forced command find: the accepted candidates' keys, each to its own permissions, and nothing else. */
  ghost predicate Admits(fs: FileSystem, cs: seq<Candidate>, outcomes: seq<Outcome>, canon: KeyReader)
    requires |outcomes| == |cs|
  {
    exists m :: Entry(fs, ManifestPath) == Some(File(ManifestText(m)))
      && LinesFor(m, cs, outcomes, canon) && FilesFor(fs, m.header, cs, outcomes, canon)
  }

  lemma CompiledSpeaks(now: int, cs: seq<Candidate>, lapsed: set<string>, canon: KeyReader)
    ensures SpeakFor(CanonicalGrants(Compiled(now, cs, lapsed, canon)), cs, MarkLapsed(Outcomes(now, cs, canon), lapsed), canon)
    ensures Sorted(CanonicalGrants(Compiled(now, cs, lapsed, canon)))
  {
    var grants, outcomes := Compiled(now, cs, lapsed, canon), MarkLapsed(Outcomes(now, cs, canon), lapsed);
    var id := CanonicalGrants(grants);
    CompiledDistinct(now, cs, lapsed, canon);
    CanonicalIsSorted(grants);
    CanonicalMembers(grants);
    hide Verdict, CanonicalGrants, Compiled, Speaks, Sorted;
    forall g | g in id ensures exists i :: AcceptedAt(outcomes, i) && Speaks(g, cs[i], canon) {
      CompiledMembers(now, cs, lapsed, canon, g);
      var i :| 0 <= i < |cs| && Verdict(now, cs, i, canon) == Ok(g);
      VerdictSpeaks(now, cs, i, canon);
      VerdictLease(now, cs, i, canon);
      assert AcceptedAt(outcomes, i);
    }
    forall i | AcceptedAt(outcomes, i) ensures exists g :: g in id && Speaks(g, cs[i], canon) {
      var g := Verdict(now, cs, i, canon).value;
      VerdictSpeaks(now, cs, i, canon);
      VerdictLease(now, cs, i, canon);
      CompiledMembers(now, cs, lapsed, canon, g);
    }
  }

  lemma CarriesFor(line: Line, g: Grant, c: Candidate, snapshot: SnapshotId, canon: KeyReader)
    requires Carries(line, g, snapshot) && Speaks(g, c, canon)
    ensures LineOf(line, c, snapshot, canon)
  {
    hide SshdAccepts;
  }

  lemma LineHasCandidate(
      line: Line, m: Manifest, grants: seq<Grant>, cs: seq<Candidate>, outcomes: seq<Outcome>, canon: KeyReader) returns (i: int)
    requires |outcomes| == |cs| && ListsGrants(m, grants) && SpeakFor(grants, cs, outcomes, canon) && line in m.lines
    ensures AcceptedAt(outcomes, i) && LineOf(line, cs[i], m.header, canon)
  {
    hide Carries, Speaks, LineOf, SpeakFor, EachGrantListed;
    var g :| g in grants && Carries(line, g, m.header);
    i := CandidateSpokenFor(g, grants, cs, outcomes, canon);
    CarriesFor(line, g, cs[i], m.header, canon);
  }

  lemma CandidateHasLine(
      i: int, m: Manifest, grants: seq<Grant>, cs: seq<Candidate>, outcomes: seq<Outcome>, canon: KeyReader) returns (line: Line)
    requires |outcomes| == |cs| && ListsGrants(m, grants) && SpeakFor(grants, cs, outcomes, canon) && AcceptedAt(outcomes, i)
    ensures line in m.lines && LineOf(line, cs[i], m.header, canon)
  {
    hide Carries, Speaks, LineOf, SpeakFor, EachLineCarries;
    var g := GrantSpeaking(i, grants, cs, outcomes, canon);
    line :| line in m.lines && Carries(line, g, m.header);
    CarriesFor(line, g, cs[i], m.header, canon);
  }

  lemma LinesAreDistinct(m: Manifest, grants: seq<Grant>)
    requires ListsGrants(m, grants)
    ensures DistinctLines(m)
  {
    hide EachLineCarries, EachGrantListed, DistinctLines;
  }

  lemma LinesAreFor(m: Manifest, grants: seq<Grant>, cs: seq<Candidate>, outcomes: seq<Outcome>, canon: KeyReader)
    requires |outcomes| == |cs| && ListsGrants(m, grants) && SpeakFor(grants, cs, outcomes, canon)
    ensures LinesFor(m, cs, outcomes, canon)
  {
    hide ListsGrants, SpeakFor, LineOf, DistinctLines;
    LinesAreDistinct(m, grants);
    forall line | line in m.lines ensures exists i :: AcceptedAt(outcomes, i) && LineOf(line, cs[i], m.header, canon) {
      var i := LineHasCandidate(line, m, grants, cs, outcomes, canon);
    }
    forall i | AcceptedAt(outcomes, i) ensures exists line :: line in m.lines && LineOf(line, cs[i], m.header, canon) {
      var line := CandidateHasLine(i, m, grants, cs, outcomes, canon);
    }
  }

  lemma SameTask(g: Grant, c: Candidate, canon: KeyReader)
    requires Speaks(g, c, canon)
    ensures g.taskUID == c.taskUID && IdOf(g) == c.taskUID
  {
  }

  lemma FilesAreFor(fs: FileSystem, cs: seq<Candidate>, outcomes: seq<Outcome>, canon: KeyReader)
    requires |outcomes| == |cs| && Sound(fs) && ManifestPath in fs && SpeakFor(Active(fs), cs, outcomes, canon)
    ensures FilesFor(fs, Active(fs), cs, outcomes, canon)
  {
    var id := Active(fs);
    SoundMeans(fs);
    hide Sound, AllRight, Speaks, Sorted, IdOf, Active, SpeakFor;
    forall i | AcceptedAt(outcomes, i)
      ensures exists g :: Entry(fs, GrantFile(Final(id), cs[i].taskUID)) == Some(File(GrantText(g))) && Speaks(g, cs[i], canon)
    {
      var g := GrantSpeaking(i, id, cs, outcomes, canon);
      SameTask(g, cs[i], canon);
      assert fs[GrantFile(Final(id), IdOf(g))] == File(GrantText(g));
    }
    forall uid | GrantFile(Final(id), uid) in fs ensures exists i :: AcceptedAt(outcomes, i) && cs[i].taskUID == uid {
      var g :| g in id && IdOf(g) == uid;
      var i := CandidateSpokenFor(g, id, cs, outcomes, canon);
      SameTask(g, cs[i], canon);
    }
  }

  lemma ActiveIsPublished(fs: FileSystem, id: SnapshotId)
    requires Sound(fs) && Entry(fs, ManifestPath) == Some(Published(id))
    ensures ManifestPath in fs && Active(fs) == id && Entry(fs, ManifestPath) == Some(File(ManifestText(ManifestFor(id))))
  {
  }

  lemma AdmitsBy(fs: FileSystem, m: Manifest, cs: seq<Candidate>, outcomes: seq<Outcome>, canon: KeyReader)
    requires |outcomes| == |cs| && Entry(fs, ManifestPath) == Some(File(ManifestText(m)))
    requires LinesFor(m, cs, outcomes, canon) && FilesFor(fs, m.header, cs, outcomes, canon)
    ensures Admits(fs, cs, outcomes, canon)
  {
    hide LinesFor, FilesFor;
  }

  lemma PublishedAdmits(fs: FileSystem, now: int, cs: seq<Candidate>, lapsed: set<string>, canon: KeyReader)
    requires Sound(fs) && Entry(fs, ManifestPath) == Some(Published(CanonicalGrants(Compiled(now, cs, lapsed, canon))))
    ensures Admits(fs, cs, MarkLapsed(Outcomes(now, cs, canon), lapsed), canon)
  {
    var id, outcomes := CanonicalGrants(Compiled(now, cs, lapsed, canon)), MarkLapsed(Outcomes(now, cs, canon), lapsed);
    CompiledSpeaks(now, cs, lapsed, canon);
    ManifestListsGrants(id);
    ActiveIsPublished(fs, id);
    hide *;
    LinesAreFor(ManifestFor(id), id, cs, outcomes, canon);
    FilesAreFor(fs, cs, outcomes, canon);
    AdmitsBy(fs, ManifestFor(id), cs, outcomes, canon);
  }

  /** The first deadline among the accepted candidates, if there is one. */
  ghost predicate FirstDeadline(cs: seq<Candidate>, outcomes: seq<Outcome>, next: Option<int>)
    requires |outcomes| == |cs|
  {
    && (next.None? ==> forall i :: 0 <= i < |cs| ==> !AcceptedAt(outcomes, i))
    && (next.Some? ==>
          && (exists i :: AcceptedAt(outcomes, i) && cs[i].expiresAt == next.value)
          && forall i :: AcceptedAt(outcomes, i) ==> next.value <= cs[i].expiresAt)
  }

  lemma SameLease(g: Grant, c: Candidate, canon: KeyReader)
    requires Speaks(g, c, canon)
    ensures g.expiresAt == c.expiresAt
  {
  }

  lemma LeaseOfCandidate(
      g: Grant, grants: seq<Grant>, cs: seq<Candidate>, outcomes: seq<Outcome>, canon: KeyReader) returns (i: int)
    requires |outcomes| == |cs| && SpeakFor(grants, cs, outcomes, canon) && g in grants
    ensures AcceptedAt(outcomes, i) && cs[i].expiresAt == g.expiresAt
  {
    hide Speaks, SpeakFor;
    i := CandidateSpokenFor(g, grants, cs, outcomes, canon);
    SameLease(g, cs[i], canon);
  }

  lemma LeaseOfGrant(
      i: int, grants: seq<Grant>, cs: seq<Candidate>, outcomes: seq<Outcome>, canon: KeyReader) returns (g: Grant)
    requires |outcomes| == |cs| && SpeakFor(grants, cs, outcomes, canon) && AcceptedAt(outcomes, i)
    ensures g in grants && cs[i].expiresAt == g.expiresAt
  {
    hide Speaks, SpeakFor;
    g := GrantSpeaking(i, grants, cs, outcomes, canon);
    SameLease(g, cs[i], canon);
  }

  lemma SpokenDeadline(grants: seq<Grant>, id: seq<Grant>, cs: seq<Candidate>, outcomes: seq<Outcome>, canon: KeyReader)
    requires |outcomes| == |cs| && SpeakFor(id, cs, outcomes, canon) && SameMembers(id, grants)
    ensures FirstDeadline(cs, outcomes, Deadline(grants))
  {
    var next := Deadline(grants);
    hide SpeakFor;
    forall i | AcceptedAt(outcomes, i) ensures next.Some? && next.value <= cs[i].expiresAt {
      var g := LeaseOfGrant(i, id, cs, outcomes, canon);
      assert g in grants;
    }
    if next.Some? {
      var g :| g in grants && g.expiresAt == next.value;
      var i := LeaseOfCandidate(g, id, cs, outcomes, canon);
    }
  }

  lemma DeadlineIsFirst(now: int, cs: seq<Candidate>, lapsed: set<string>, canon: KeyReader)
    ensures FirstDeadline(cs, MarkLapsed(Outcomes(now, cs, canon), lapsed), Deadline(Compiled(now, cs, lapsed, canon)))
  {
    hide *;
    var grants, outcomes := Compiled(now, cs, lapsed, canon), MarkLapsed(Outcomes(now, cs, canon), lapsed);
    CompiledSpeaks(now, cs, lapsed, canon);
    CompiledDistinct(now, cs, lapsed, canon);
    CanonicalMembers(grants);
    SpokenDeadline(grants, CanonicalGrants(grants), cs, outcomes, canon);
  }

  class Receiver {
    const disk: Disk
    var lapsed: set<string>

    ghost predicate Valid()
      reads this, disk
    {
      disk.Valid() && AllSound(disk.history)
    }

    /** A new process over whatever file system an earlier one left. */
    constructor (disk: Disk)
      requires disk.Valid() && AllSound(disk.history)
      ensures this.disk == disk && lapsed == {} && Valid()
    {
      this.disk := disk;
      lapsed := {};
    }

    lemma ValidIsSound()
      requires Valid()
      ensures Sound(disk.fs) && AllRight(disk.fs) && AllSound(disk.history)
    {
    }

    // ----- Starting a process -----

    /** Discards all authority; the manifest goes before anything it vouches for. */
    method Reset() returns (ok: bool)
      requires Valid()
      modifies disk
      ensures Valid() && old(disk.history) <= disk.history
      ensures ok ==> ManifestPath !in disk.fs && forall p :: p in disk.fs ==> !In(p, WholeRuntime)
      ensures forall k :: |old(disk.history)| <= k < |disk.history| ==> ManifestPath !in disk.history[k]
      ensures !ok ==> disk.faulty || disk.stuck
    {
      var failed := disk.Fails();
      if failed {
        return false;
      }
      ghost var before := disk.fs;
      assert Sound(before);
      var removed := disk.Remove(ManifestPath);
      if removed.NotRemoved? {
        return false;
      }
      if removed.Removed? {
        RemovingKeepsSound(before, ManifestPath);
      }
      ghost var bare, start := disk.fs, |disk.history|;
      assert Sound(bare) && ManifestPath !in bare;
      ok := disk.RemoveTree(WholeRuntime);
      forall k | start <= k < |disk.history| ensures Sound(disk.history[k]) && ManifestPath !in disk.history[k] {
        ShrinkingKeepsSound(bare, disk.history[k], WholeRuntime);
      }
    }

    // ----- Reading back -----

    method ReadActiveManifest() returns (r: ActiveRead)
      requires Valid()
      ensures r.ActiveManifest? ==>
        ManifestPath in disk.fs && disk.fs[ManifestPath] == File(ManifestText(r.manifest)) && r.id == r.manifest.header
      ensures r.NoManifest? ==> ManifestPath !in disk.fs
      ensures r.BadManifest? ==> disk.faulty
    {
      assert Sound(disk.fs);
      assert ManifestPath in disk.fs ==> RightNode(ManifestPath, disk.fs[ManifestPath]);
      var read := disk.ReadFile(ManifestPath);
      match read {
        case Found(ManifestText(m)) => return ActiveManifest(m.header, m);
        case Found(_) => return BadManifest;
        case NotExist => return NoManifest;
        case Failed => return BadManifest;
      }
    }

    /** The whole grant directory, in whatever order it is listed. */
    method ReadGenerationGrants(name: Name) returns (r: Option<seq<Grant>>)
      requires Valid()
      ensures r.Some? ==> GrantsDir(name) in disk.fs && DistinctIds(r.value)
      ensures r.Some? ==> forall g :: g in r.value ==>
        GrantFile(name, IdOf(g)) in disk.fs && disk.fs[GrantFile(name, IdOf(g))] == File(GrantText(g))
      ensures r.Some? ==> forall x :: GrantFile(name, x) in disk.fs ==> exists g :: g in r.value && IdOf(g) == x
      ensures r.None? && name.Final? ==> disk.faulty || GrantsDir(name) !in disk.fs
    {
      var failed := disk.Fails();
      if failed {
        return None;
      }
      if GrantsDir(name) !in disk.fs {
        return None;
      }
      var entries := set p | p in disk.fs && p.GrantFile? && p.name == name :: p.grant;
      var left, grants: seq<Grant> := entries, [];
      while left != {}
        invariant left <= entries && DistinctIds(grants)
        invariant forall g :: g in grants ==> IdOf(g) in entries - left && disk.fs[GrantFile(name, IdOf(g))] == File(GrantText(g))
        invariant forall x :: x in entries - left ==> exists g :: g in grants && IdOf(g) == x
        decreases left
      {
        var id :| id in left;
        assert GrantFile(name, id) in disk.fs;
        StoredGrantRight(disk.fs, name, id);
        var read := disk.ReadFile(GrantFile(name, id));
        if !read.Found? || !read.content.GrantText? || IdOf(read.content.g) != id {
          return None;
        }
        ghost var before, unread := grants, left;
        grants := grants + [read.content.g];
        left := left - {id};
        forall x | x in entries - left ensures exists g :: g in grants && IdOf(g) == x {
          if x != id {
            assert x in entries - unread;
            var g :| g in before && IdOf(g) == x;
            assert g in grants;
          } else {
            assert grants[|before|] in grants;
          }
        }
      }
      forall x | GrantFile(name, x) in disk.fs ensures exists g :: g in grants && IdOf(g) == x {
        assert x in entries - left;
      }
      return Some(grants);
    }

    method ValidateGeneration(id: SnapshotId) returns (ok: bool)
      requires Valid() && Sorted(id)
      ensures ok ==> Complete(disk.fs, id)
      ensures !ok ==> disk.faulty || !Complete(disk.fs, id)
    {
      var failed := disk.Fails();
      if failed {
        return false;
      }
      assert Sound(disk.fs);
      if Generation(Final(id)) !in disk.fs {
        return false;
      }
      var copy := GenerationManifest(Final(id));
      assert copy in disk.fs ==> RightNode(copy, disk.fs[copy]);
      var read := disk.ReadFile(copy);
      if !read.Found? || !read.content.ManifestText? {
        return false;
      }
      if read.content.m.header != id || read.content.m != ManifestFor(id) {
        return false;
      }
      var stored := ReadGenerationGrants(Final(id));
      if stored.Some? && Complete(disk.fs, id) {
        CompleteIsWhole(disk.fs, id, stored.value);
      }
      if stored.None? || CanonicalGrants(stored.value) != id {
        return false;
      }
      CanonicalMembers(stored.value);
      return true;
    }

    /** Whether an interrupted replacement left a complete, enforceable snapshot. */
    method ActiveUsable() returns (usable: bool)
      requires Valid()
      ensures usable ==> ManifestPath in disk.fs && Complete(disk.fs, Active(disk.fs))
      ensures !usable ==> disk.faulty || ManifestPath !in disk.fs
    {
      assert Sound(disk.fs);
      var active := ReadActiveManifest();
      if !active.ActiveManifest? {
        return false;
      }
      SoundMeans(disk.fs);
      var grants := ReadGenerationGrants(Final(active.id));
      if grants.Some? {
        CompleteIsWhole(disk.fs, active.id, grants.value);
      }
      if grants.None? || CanonicalGrants(grants.value) != active.id {
        return false;
      }
      if active.manifest != RenderManifest(CanonicalGrants(grants.value), active.id) {
        return false;
      }
      usable := ValidateGeneration(active.id);
    }

    // ----- Writing -----

    /** Removes as much of a generation as it can; never the active one. */
    method RemoveGeneration(name: Name) returns (ok: bool)
      requires Valid() && (ManifestPath in disk.fs ==> name != Final(Active(disk.fs)))
      modifies disk
      ensures Valid() && Quiet(old(disk.history), old(disk.fs), disk.history)
      ensures Entry(disk.fs, ManifestPath) == Entry(old(disk.fs), ManifestPath)
      ensures Shrunk(old(disk.fs), disk.fs, OneGeneration(name))
      ensures ok ==> Generation(name) !in disk.fs
      ensures !ok ==> disk.faulty || (disk.stuck && exists p :: p in old(disk.fs) && HasName(p, name))
      ensures disk.stuck && !disk.faulty ==> OneStep(old(disk.fs), disk.fs, OneGeneration(name))
    {
      ghost var before, start := disk.fs, disk.history;
      assert Sound(before);
      ok := disk.RemoveTree(OneGeneration(name));
      assert HasName(Generation(name), name);
      forall k | |start| <= k < |disk.history|
        ensures Sound(disk.history[k]) && Entry(disk.history[k], ManifestPath) == Entry(before, ManifestPath)
      {
        ShrinkingKeepsSound(before, disk.history[k], OneGeneration(name));
      }
    }

    /** Every generation but the active one goes, in any order; what cannot be removed is left for the next time. */
    method CleanupRetiredGenerations(activeId: SnapshotId) returns (warning: bool)
      requires Valid() && ManifestPath in disk.fs && Active(disk.fs) == activeId
      modifies disk
      ensures Valid() && Quiet(old(disk.history), old(disk.fs), disk.history)
      ensures Entry(disk.fs, ManifestPath) == Entry(old(disk.fs), ManifestPath)
      ensures !warning ==> forall name :: Generation(name) in disk.fs ==> name == Final(activeId)
      ensures warning ==> disk.faulty || disk.stuck
      ensures disk.stuck && !disk.faulty ==>
        forall id :: id != activeId && Complete(old(disk.fs), id) ==> Obstructed(disk.fs, id)
      ensures forall x :: Generation(Final(x)) in disk.fs ==> Generation(Final(x)) in old(disk.fs)
    {
      var failed := disk.Fails();
      if failed {
        return true;
      }
      ghost var before, start := disk.fs, disk.history;
      var entries := set p | p in disk.fs && p.Generation? :: p.name;
      assert forall name :: Generation(name) in disk.fs ==> Generation(name).name in entries;
      var left := entries;
      warning := false;
      while left != {}
        invariant Valid() && Quiet(start, before, disk.history)
        invariant Entry(disk.fs, ManifestPath) == Entry(before, ManifestPath)
        invariant !warning ==> forall name :: Generation(name) in disk.fs ==> name in left || name == Final(activeId)
        invariant warning ==> disk.faulty || disk.stuck
        invariant forall x :: Generation(Final(x)) in disk.fs ==> Generation(Final(x)) in before
        invariant disk.stuck && !disk.faulty ==>
          forall id :: id != activeId && Complete(before, id) ==>
            if Final(id) in left then Complete(disk.fs, id) else Obstructed(disk.fs, id)
        decreases left
      {
        var name :| name in left;
        left := left - {name};
        if name == Final(activeId) {
          continue;
        }
        ghost var here, sofar := disk.fs, disk.history;
        assert Sound(here) && Active(here) == activeId;
        var ok := RemoveGeneration(name);
        QuietThen(start, before, sofar, here, disk.history);
        forall id | id != activeId && Complete(here, id) && disk.stuck && !disk.faulty
          ensures if Final(id) == name then Obstructed(disk.fs, id) else Complete(disk.fs, id)
        {
          HalfRemoved(here, disk.fs, name, id);
        }
        if !ok {
          warning := true;
        }
      }
    }

    /** Writes a new file that no published generation depends on. */
    method WritePrivate(p: Path, content: Content) returns (ok: bool)
      requires Valid() && Private(p) && RightNode(p, File(Torn)) && RightNode(p, File(content))
      modifies disk
      ensures Valid() && Quiet(old(disk.history), old(disk.fs), disk.history)
      ensures Entry(disk.fs, ManifestPath) == Entry(old(disk.fs), ManifestPath)
      ensures ok ==> p !in old(disk.fs) && disk.fs == old(disk.fs)[p := File(content)]
      ensures forall q :: q != p ==> Entry(disk.fs, q) == Entry(old(disk.fs), q)
      ensures !ok ==> disk.faulty || p in old(disk.fs) || !Rooted(p, old(disk.fs))
    {
      ghost var before, start := disk.fs, disk.history;
      assert Sound(before);
      ok := disk.CreateFile(p, content);
      if ok || disk.fs != before {
        AddingKeepsSound(before, p, File(Torn));
        QuietStep(start, before, start, before[p := File(Torn)]);
      }
      if ok {
        AddingKeepsSound(before[p := File(Torn)], p, File(content));
        QuietStep(start, before, start + [before[p := File(Torn)]], disk.fs);
        assert before[p := File(Torn)][p := File(content)] == before[p := File(content)];
        assert start + [before[p := File(Torn)]] + [disk.fs] == disk.history;
      }
    }

    method StageGrants(n: nat, id: SnapshotId) returns (ok: bool)
      requires Valid() && Sorted(id) && StagedGrants(disk.fs, n, id, 0)
      modifies disk
      ensures Valid() && Quiet(old(disk.history), old(disk.fs), disk.history)
      ensures Entry(disk.fs, ManifestPath) == Entry(old(disk.fs), ManifestPath)
      ensures GenerationManifest(Staging(n)) in disk.fs <==> GenerationManifest(Staging(n)) in old(disk.fs)
      ensures forall x :: Generation(Final(x)) in disk.fs <==> Generation(Final(x)) in old(disk.fs)
      ensures ok ==> StagedGrants(disk.fs, n, id, |id|)
      ensures !ok ==> disk.faulty
    {
      SortedIsDistinct(id);
      ghost var before, start := disk.fs, disk.history;
      for i := 0 to |id|
        invariant Valid() && Quiet(start, before, disk.history)
        invariant Entry(disk.fs, ManifestPath) == Entry(before, ManifestPath)
        invariant GenerationManifest(Staging(n)) in disk.fs <==> GenerationManifest(Staging(n)) in before
        invariant forall x :: Generation(Final(x)) in disk.fs <==> Generation(Final(x)) in before
        invariant StagedGrants(disk.fs, n, id, i)
      {
        ghost var here, sofar := disk.fs, disk.history;
        ok := WritePrivate(GrantFile(Staging(n), IdOf(id[i])), GrantText(id[i]));
        assert Entry(disk.fs, GenerationManifest(Staging(n))) == Entry(here, GenerationManifest(Staging(n)));
        assert forall x :: Entry(disk.fs, Generation(Final(x))) == Entry(here, Generation(Final(x)));
        QuietThen(start, before, sofar, here, disk.history);
        if !ok {
          return false;
        }
        StagedOneMore(here, disk.fs, n, id, i);
      }
      ok := true;
    }

    method StageDirectory(n: nat) returns (ok: bool)
      requires Valid() && Generation(Staging(n)) in disk.fs
      requires GrantsDir(Staging(n)) !in disk.fs
      modifies disk
      ensures Valid() && Quiet(old(disk.history), old(disk.fs), disk.history)
      ensures disk.fs == if ok then old(disk.fs)[GrantsDir(Staging(n)) := Dir] else old(disk.fs)
      ensures !ok ==> disk.faulty
    {
      ghost var before, start := disk.fs, disk.history;
      assert Sound(before);
      ok := disk.MakeDir(GrantsDir(Staging(n)));
      if ok {
        AddingKeepsSound(before, GrantsDir(Staging(n)), Dir);
        QuietStep(start, before, start, disk.fs);
      }
    }

    method StageGeneration(n: nat, id: SnapshotId) returns (ok: bool)
      requires Valid() && Sorted(id)
      requires Generation(Staging(n)) in disk.fs
      requires forall p :: p in disk.fs && HasName(p, Staging(n)) ==> p == Generation(Staging(n))
      modifies disk
      ensures Valid() && Quiet(old(disk.history), old(disk.fs), disk.history)
      ensures Entry(disk.fs, ManifestPath) == Entry(old(disk.fs), ManifestPath)
      ensures ok ==> Staged(disk.fs, n, id)
      ensures !ok ==> disk.faulty
      ensures forall x :: Generation(Final(x)) in disk.fs <==> Generation(Final(x)) in old(disk.fs)
    {
      ghost var before, start := disk.fs, disk.history;
      ok := StageDirectory(n);
      if !ok {
        return false;
      }
      ghost var made, sofar := disk.fs, disk.history;
      ok := StageGrants(n, id);
      QuietThen(start, before, sofar, made, disk.history);
      if !ok {
        return false;
      }
      ghost var granted, later := disk.fs, disk.history;
      ok := WritePrivate(GenerationManifest(Staging(n)), ManifestText(ManifestFor(id)));
      assert forall x :: Entry(disk.fs, Generation(Final(x))) == Entry(granted, Generation(Final(x)));
      QuietThen(start, before, later, granted, disk.history);
      var unsealed := disk.Fails();
      ok := ok && !unsealed;
    }

    method PublishGeneration(n: nat, id: SnapshotId, ghost before: FileSystem, ghost start: seq<FileSystem>) returns (ok: bool)
      requires Valid() && Staged(disk.fs, n, id)
      requires Quiet(start, before, disk.history) && Entry(disk.fs, ManifestPath) == Entry(before, ManifestPath)
      modifies disk
      ensures Valid() && Quiet(start, before, disk.history)
      ensures Entry(disk.fs, ManifestPath) == Entry(before, ManifestPath)
      ensures ok ==> Complete(disk.fs, id)
      ensures !ok ==> disk.faulty || Generation(Final(id)) in old(disk.fs)
      ensures ok ==> forall p :: p in disk.fs ==> !HasName(p, Staging(n))
      ensures NoOtherFinal(old(disk.fs), disk.fs, id)
    {
      ghost var staged, sofar := disk.fs, disk.history;
      assert Sound(staged);
      ok := disk.RenameGeneration(n, id);
      if ok {
        PublishingKeepsSound(staged, n, id);
        QuietStep(start, before, sofar, disk.fs);
      }
    }

    method StageAndPublish(n: nat, id: SnapshotId) returns (ok: bool)
      requires Valid() && Sorted(id)
      requires Generation(Staging(n)) in disk.fs
      requires forall p :: p in disk.fs && HasName(p, Staging(n)) ==> p == Generation(Staging(n))
      modifies disk
      ensures Valid() && Quiet(old(disk.history), old(disk.fs), disk.history)
      ensures Entry(disk.fs, ManifestPath) == Entry(old(disk.fs), ManifestPath)
      ensures ok ==> Complete(disk.fs, id)
      ensures !ok ==> disk.faulty || Generation(Final(id)) in old(disk.fs)
      ensures NoOtherFinal(old(disk.fs), disk.fs, id)
    {
      ghost var before, start := disk.fs, disk.history;
      ok := StageGeneration(n, id);
      if ok {
        ok := PublishGeneration(n, id, before, start);
      }
      ghost var here, sofar := disk.fs, disk.history;
      assert Sound(here);
      var removed := RemoveGeneration(Staging(n));
      QuietThen(start, before, sofar, here, disk.history);
      if ok {
        assert forall g :: g in id ==> GrantFile(Final(id), IdOf(g)) in here;
      }
      ok := ok && removed;
    }

    /** Stages a complete generation and renames it into place, or finds it already there. */
    method MaterializeGeneration(id: SnapshotId) returns (ok: bool)
      requires Valid() && Sorted(id)
      modifies disk
      ensures Valid() && Quiet(old(disk.history), old(disk.fs), disk.history)
      ensures Entry(disk.fs, ManifestPath) == Entry(old(disk.fs), ManifestPath)
      ensures ok ==> Complete(disk.fs, id) && !Obstructed(old(disk.fs), id)
      ensures !ok ==> disk.faulty || Obstructed(old(disk.fs), id) || GenerationsRoot !in old(disk.fs)
      ensures NoOtherFinal(old(disk.fs), disk.fs, id)
    {
      var failed := disk.Fails();
      if failed {
        return false;
      }
      if Generation(Final(id)) in disk.fs {
        ok := ValidateGeneration(id);
        return;
      }
      ghost var before, start := disk.fs, disk.history;
      assert Sound(before);
      var n := FreshStaging(disk.fs);
      ok := disk.MakeDir(Generation(Staging(n)));
      if !ok {
        return false;
      }
      AddingKeepsSound(before, Generation(Staging(n)), Dir);
      QuietStep(start, before, start, disk.fs);
      NothingWithoutDirectory(before, Staging(n));
      ghost var made, sofar := disk.fs, disk.history;
      ok := StageAndPublish(n, id);
      QuietThen(start, before, sofar, made, disk.history);
    }

    method RemoveTemporary(n: nat) returns (ok: bool)
      requires Valid()
      modifies disk
      ensures Valid() && Quiet(old(disk.history), old(disk.fs), disk.history)
      ensures Entry(disk.fs, ManifestPath) == Entry(old(disk.fs), ManifestPath)
      ensures forall q: Path :: !q.ManifestTemp? ==> Entry(disk.fs, q) == Entry(old(disk.fs), q)
    {
      ghost var before, start := disk.fs, disk.history;
      assert Sound(before);
      var removed := disk.Remove(ManifestTemp(n));
      if removed.Removed? {
        RemovingKeepsSound(before, ManifestTemp(n));
        QuietStep(start, before, start, disk.fs);
      }
      ok := !removed.NotRemoved?;
    }

    /** The commit point: one rename of a complete temporary file over the manifest. */
    method CommitManifest(id: SnapshotId) returns (ok: bool)
      requires Valid() && Sorted(id) && Complete(disk.fs, id)
      modifies disk
      ensures Valid() && old(disk.history) <= disk.history
      ensures !ok ==> Quiet(old(disk.history), old(disk.fs), disk.history)
      ensures !ok ==> Entry(disk.fs, ManifestPath) == Entry(old(disk.fs), ManifestPath)
      ensures ok ==> Switched(old(disk.history), old(disk.fs), disk.history, id)
      ensures ok ==> Entry(disk.fs, ManifestPath) == Some(Published(id))
      ensures !ok ==> disk.faulty
      ensures forall q :: q != ManifestPath && !q.ManifestTemp? ==> Entry(disk.fs, q) == Entry(old(disk.fs), q)
    {
      ghost var before, start := disk.fs, disk.history;
      var n := FreshTemporary(disk.fs);
      ok := WritePrivate(ManifestTemp(n), ManifestText(ManifestFor(id)));
      ghost var written, sofar := disk.fs, disk.history;
      var vetoed := disk.Fails();
      if ok && !vetoed {
        assert Sound(written) && Complete(written, id);
        ok := disk.RenameFile(ManifestTemp(n), ManifestPath);
        if ok {
          CommitKeepsSound(written, ManifestTemp(n), id);
          SwitchedBy(start, before, sofar, disk.fs, id);
        }
      } else {
        ok := false;
      }
      if !ok {
        var removed := RemoveTemporary(n);
        QuietThen(start, before, sofar, written, disk.history);
      } else {
        var removed := disk.Remove(ManifestTemp(n));
        assert removed.Absent?;
      }
    }

    method EnsurePrivateDir(p: Path) returns (ok: bool)
      requires Valid() && (p == RuntimeRoot || p == GenerationsRoot)
      modifies disk
      ensures Valid() && Quiet(old(disk.history), old(disk.fs), disk.history)
      ensures Entry(disk.fs, ManifestPath) == Entry(old(disk.fs), ManifestPath)
      ensures forall q :: q != p ==> Entry(disk.fs, q) == Entry(old(disk.fs), q)
      ensures ok ==> p in disk.fs
      ensures !ok ==> disk.faulty || !Rooted(p, old(disk.fs))
    {
      ghost var before, start := disk.fs, disk.history;
      assert Sound(before);
      assert p in before ==> RightNode(p, before[p]);
      ok := disk.EnsureDir(p);
      if ok && p !in before {
        AddingKeepsSound(before, p, Dir);
        QuietStep(start, before, start, disk.fs);
      }
    }

    method PrepareDirectories() returns (ok: bool)
      requires Valid()
      modifies disk
      ensures Valid() && Quiet(old(disk.history), old(disk.fs), disk.history)
      ensures Entry(disk.fs, ManifestPath) == Entry(old(disk.fs), ManifestPath)
      ensures forall q :: q != RuntimeRoot && q != GenerationsRoot ==> Entry(disk.fs, q) == Entry(old(disk.fs), q)
      ensures ok ==> GenerationsRoot in disk.fs
      ensures !ok ==> disk.faulty
    {
      var failed := disk.Fails();
      if failed {
        return false;
      }
      ghost var before, start := disk.fs, disk.history;
      ok := EnsurePrivateDir(RuntimeRoot);
      if ok {
        ghost var made, sofar := disk.fs, disk.history;
        ok := EnsurePrivateDir(GenerationsRoot);
        assert forall q :: q != RuntimeRoot && q != GenerationsRoot ==> Entry(disk.fs, q) == Entry(made, q) == Entry(before, q);
        QuietThen(start, before, sofar, made, disk.history);
      }
    }

    /** The published snapshot is the one wanted: checked, and what else is there cleaned up. */
    method Confirm(id: SnapshotId, manifest: Manifest) returns (failure: Option<Failure>, warning: bool)
      requires Valid() && Sorted(id) && manifest.header == id
      requires ManifestPath in disk.fs && disk.fs[ManifestPath] == File(ManifestText(manifest))
      modifies disk
      ensures Valid() && Quiet(old(disk.history), old(disk.fs), disk.history)
      ensures Entry(disk.fs, ManifestPath) == Entry(old(disk.fs), ManifestPath) == Some(Published(id))
      ensures failure.Some? ==> disk.faulty
      ensures warning ==> disk.faulty || disk.stuck
      ensures failure.None? && !warning ==> forall name :: Generation(name) in disk.fs ==> name == Final(id)
      ensures NoOtherFinal(old(disk.fs), disk.fs, id)
    {
      assert Sound(disk.fs);
      SoundMeans(disk.fs);
      warning := false;
      if manifest != ManifestFor(id) {
        return Some(ManifestMismatch), false;
      }
      var ok := ValidateGeneration(id);
      if !ok {
        return Some(GenerationInvalid), false;
      }
      warning := CleanupRetiredGenerations(id);
      return None, warning;
    }

    /** Another snapshot is wanted: made, committed, and what it replaces cleaned up. */
    method SwitchTo(id: SnapshotId) returns (failure: Option<Failure>, warning: bool)
      requires Valid() && Sorted(id) && GenerationsRoot in disk.fs
      requires ManifestPath in disk.fs ==> Active(disk.fs) != id
      modifies disk
      ensures Valid() && old(disk.history) <= disk.history
      ensures failure.Some? ==> Quiet(old(disk.history), old(disk.fs), disk.history)
      ensures failure.Some? ==> Entry(disk.fs, ManifestPath) == Entry(old(disk.fs), ManifestPath)
      ensures failure.None? ==> Entry(disk.fs, ManifestPath) == Some(Published(id))
      ensures failure.None? ==> Switched(old(disk.history), old(disk.fs), disk.history, id)
      ensures failure.None? && !warning ==> forall name :: Generation(name) in disk.fs ==> name == Final(id)
      ensures !disk.faulty ==> (failure.None? <==> !Obstructed(old(disk.fs), id))
      ensures warning ==> disk.faulty || disk.stuck
      ensures NoOtherFinal(old(disk.fs), disk.fs, id)
      ensures failure.None? && disk.stuck && !disk.faulty && ManifestPath in old(disk.fs) ==>
        Obstructed(disk.fs, Active(old(disk.fs)))
    {
      warning := false;
      ghost var before, start := disk.fs, disk.history;
      assert Sound(before);
      var ok := MaterializeGeneration(id);
      ghost var made, sofar := disk.fs, disk.history;
      if !ok {
        return Some(StagingFailed), false;
      }
      assert Sound(made);
      ok := CommitManifest(id);
      ghost var committed, later := disk.fs, disk.history;
      if !ok {
        QuietThen(start, before, sofar, made, later);
        FinalsFramed(before, made, committed, id);
        return Some(CommitFailed), false;
      }
      SwitchedAfter(start, before, sofar, made, later, id);
      FinalsFramed(before, made, committed, id);
      assert Sound(committed) && Active(committed) == id;
      if ManifestPath in before {
        StillComplete(made, committed, Active(before));
      }
      warning := CleanupRetiredGenerations(id);
      SwitchedThen(start, before, later, committed, disk.history, id);
      return None, warning;
    }

    method Activate(grants: seq<Grant>) returns (failure: Option<Failure>, changed: bool, warning: bool)
      requires Valid() && DistinctIds(grants)
      modifies disk
      ensures Valid() && old(disk.history) <= disk.history
      ensures failure.Some? ==> Quiet(old(disk.history), old(disk.fs), disk.history)
      ensures failure.Some? ==> Entry(disk.fs, ManifestPath) == Entry(old(disk.fs), ManifestPath)
      ensures failure.None? ==> Entry(disk.fs, ManifestPath) == Some(Published(CanonicalGrants(grants)))
      ensures failure.None? ==> Switched(old(disk.history), old(disk.fs), disk.history, CanonicalGrants(grants))
      ensures failure.None? ==> (changed <==> Entry(old(disk.fs), ManifestPath) != Some(Published(CanonicalGrants(grants))))
      ensures failure.None? && !warning ==> forall name :: Generation(name) in disk.fs ==> name == Final(CanonicalGrants(grants))
      ensures !disk.faulty ==> (failure.None? <==> !Obstructed(old(disk.fs), CanonicalGrants(grants)))
      ensures warning ==> disk.faulty || disk.stuck
      ensures NoOtherFinal(old(disk.fs), disk.fs, CanonicalGrants(grants))
      ensures changed && disk.stuck && !disk.faulty && ManifestPath in old(disk.fs) ==>
        Obstructed(disk.fs, Active(old(disk.fs)))
    {
      hide *;
      changed, warning := false, false;
      ghost var before, start := disk.fs, disk.history;
      ValidIsSound();
      var ok := PrepareDirectories();
      ghost var prepared, ready := disk.fs, disk.history;
      QuietExtends(start, before, ready);
      ValidIsSound();
      var id := CanonicalGrants(grants);
      CanonicalIsSorted(grants);
      SameGeneration(before, prepared, id);
      SameFinals(before, prepared);
      if !ok {
        return Some(RuntimeDirectoryFailed), false, false;
      }
      var active := ReadActiveManifest();
      if active.BadManifest? {
        return Some(ManifestUnreadable), false, false;
      }
      if active.ActiveManifest? && active.id == id {
        ActiveIs(prepared, active);
        CompleteWhenActive(before, prepared, id);
        failure, warning := Confirm(id, active.manifest);
        QuietThen(start, before, ready, prepared, disk.history);
        QuietExtends(start, before, disk.history);
        SwitchedAlready(start, before, disk.history, id);
        NoOtherThen(before, prepared, disk.fs, id);
        return;
      }
      ManifestDiffers(before, prepared, active, id);
      failure, warning := SwitchTo(id);
      changed := failure.None?;
      NoOtherThen(before, prepared, disk.fs, id);
      if changed {
        SwitchedAfter(start, before, ready, prepared, disk.history, id);
      } else {
        QuietThen(start, before, ready, prepared, disk.history);
      }
    }

    /** Records this call's lapses and returns those known before it. */
    method RecordAndReturnPreviouslyObservedLapses(now: int, candidates: seq<Candidate>) returns (previous: set<string>)
      modifies this
      ensures previous == old(lapsed) && lapsed == old(lapsed) + LapsedNow(now, candidates)
    {
      previous := lapsed;
      for i := 0 to |candidates|
        invariant lapsed == previous + LapsedNow(now, candidates[..i])
      {
        assert candidates[..i + 1] == candidates[..i] + [candidates[i]];
        if candidates[i].taskUID != "" && candidates[i].expiresAt <= now {
          lapsed := lapsed + {candidates[i].taskUID};
        }
      }
      assert candidates[..|candidates|] == candidates;
    }

    method Replace(now: int, candidates: seq<Candidate>, canon: KeyReader) returns (r: Replacement)
      requires Valid()
      modifies this, disk
      ensures Valid() && old(disk.history) <= disk.history
      ensures lapsed == old(lapsed) + LapsedNow(now, candidates)
      ensures r.ReplaceFailed? ==> Quiet(old(disk.history), old(disk.fs), disk.history)
      ensures r.ReplaceFailed? ==> Entry(disk.fs, ManifestPath) == Entry(old(disk.fs), ManifestPath)
      ensures r.ReplaceFailed? && r.activeAuthorityUsable ==> ManifestPath in disk.fs && Complete(disk.fs, Active(disk.fs))
      ensures r.Replaced? ==>
        var id := CanonicalGrants(Compiled(now, candidates, old(lapsed), canon));
        && Entry(disk.fs, ManifestPath) == Some(Published(id))
        && Switched(old(disk.history), old(disk.fs), disk.history, id)
        && (r.activation.changed <==> Entry(old(disk.fs), ManifestPath) != Some(Published(id)))
        && (!r.activation.warning ==> forall name :: Generation(name) in disk.fs ==> name == Final(id))
      ensures !disk.faulty ==>
        (r.Replaced? <==> !Obstructed(old(disk.fs), CanonicalGrants(Compiled(now, candidates, old(lapsed), canon))))
      ensures r.Replaced? && r.activation.warning ==> disk.faulty || disk.stuck
      ensures NoOtherFinal(old(disk.fs), disk.fs, CanonicalGrants(Compiled(now, candidates, old(lapsed), canon)))
      ensures r.Replaced? && r.activation.changed && disk.stuck && !disk.faulty && ManifestPath in old(disk.fs) ==>
        Obstructed(disk.fs, Active(old(disk.fs)))
      ensures !disk.faulty && r.ReplaceFailed? && !r.activeAuthorityUsable ==> ManifestPath !in disk.fs
      ensures r.Replaced? ==> r.activation.nextDeadline == Deadline(Compiled(now, candidates, old(lapsed), canon))
      ensures r.Replaced? ==> r.activation.outcomes == MarkLapsed(Outcomes(now, candidates, canon), old(lapsed))
      ensures r.Replaced? ==>
        && Settled(now, candidates, old(lapsed), canon, r.activation.outcomes)
        && Admits(disk.fs, candidates, r.activation.outcomes, canon)
        && FirstDeadline(candidates, r.activation.outcomes, r.activation.nextDeadline)
    {
      hide Settled, Admits, FirstDeadline, SpeakFor;
      var outcomes, grants := CompileCandidates(now, candidates, canon);
      var previous := RecordAndReturnPreviouslyObservedLapses(now, candidates);
      AcceptedDistinct(now, candidates, |candidates|, canon);
      ActiveGrants(grants, previous);
      if previous != {} {
        outcomes := RejectLapsed(candidates, outcomes, previous);
        grants := RemoveLapsedGrants(grants, previous);
      } else {
        NothingLapsed(grants);
        assert outcomes == MarkLapsed(outcomes, {});
      }
      var failure, changed, warning := Activate(grants);
      if failure.Some? {
        var usable := ActiveUsable();
        return ReplaceFailed(failure.value, usable);
      }
      var next := NextLeaseDeadline(grants);
      OutcomesAreSettled(now, candidates, previous, canon);
      PublishedAdmits(disk.fs, now, candidates, previous, canon);
      DeadlineIsFirst(now, candidates, previous, canon);
      return Replaced(Activation(changed, warning, next, outcomes));
    }
  }
}
