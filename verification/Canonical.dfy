/** Canonical grant sequences and snapshot identity (internal/receiverauthorization/snapshot.go, grant.go).

    One idealisation lives here and nowhere else. The program hashes a task UID to a grant ID, and the encoded canonical
    grant sequence to a snapshot ID; the model takes both hashes, and the encoding, to be injective. So a grant ID is the
    UID itself, ordered lexicographically, and a snapshot ID is the canonical grant sequence itself. */
module Canonical {
  import opened Text
  import opened Grants

  type GrantId = string

  type SnapshotId = seq<Grant>

  function IdOf(g: Grant): (id: GrantId) {
    g.taskUID
  }

  // ----- Sorting -----

  function Insert(g: Grant, sorted: seq<Grant>): (r: seq<Grant>) {
    if sorted == [] || Before(IdOf(g), IdOf(sorted[0])) then [g] + sorted
    else [sorted[0]] + Insert(g, sorted[1..])
  }

  function CanonicalGrants(grants: seq<Grant>): (id: SnapshotId) {
    if grants == [] then [] else Insert(grants[0], CanonicalGrants(grants[1..]))
  }

  predicate Sorted(grants: seq<Grant>) {
    forall a, b :: 0 <= a < b < |grants| ==> Before(IdOf(grants[a]), IdOf(grants[b]))
  }

  predicate DistinctIds(grants: seq<Grant>) {
    forall a, b :: 0 <= a < b < |grants| ==> IdOf(grants[a]) != IdOf(grants[b])
  }

  lemma {:induction false} InsertKeeps(g: Grant, sorted: seq<Grant>)
    requires Sorted(sorted) && forall h :: h in sorted ==> IdOf(h) != IdOf(g)
    ensures Sorted(Insert(g, sorted)) && multiset(Insert(g, sorted)) == multiset(sorted) + multiset{g}
  {
    var r := Insert(g, sorted);
    if sorted == [] {
    } else if Before(IdOf(g), IdOf(sorted[0])) {
      forall b | 0 <= b < |sorted| ensures Before(IdOf(g), IdOf(sorted[b])) {
        if b > 0 {
          BeforeIsTransitive(IdOf(g), IdOf(sorted[0]), IdOf(sorted[b]));
        }
      }
    } else {
      BeforeIsTotal(IdOf(g), IdOf(sorted[0]));
      InsertKeeps(g, sorted[1..]);
      var rest := Insert(g, sorted[1..]);
      assert sorted == [sorted[0]] + sorted[1..];
      forall b | 0 <= b < |rest| ensures Before(IdOf(sorted[0]), IdOf(rest[b])) {
        assert rest[b] in multiset(rest);
        assert rest[b] in sorted[1..] || rest[b] == g;
      }
    }
  }

  lemma {:induction false} CanonicalIsSorted(grants: seq<Grant>)
    requires DistinctIds(grants)
    ensures Sorted(CanonicalGrants(grants)) && multiset(CanonicalGrants(grants)) == multiset(grants)
  {
    if grants != [] {
      var tail := grants[1..];
      CanonicalIsSorted(tail);
      assert grants == [grants[0]] + tail;
      forall h | h in CanonicalGrants(tail) ensures IdOf(h) != IdOf(grants[0]) {
        assert h in multiset(CanonicalGrants(tail));
        assert h in tail;
      }
      InsertKeeps(grants[0], CanonicalGrants(tail));
    }
  }

  lemma SortedIsDistinct(grants: seq<Grant>)
    requires Sorted(grants)
    ensures DistinctIds(grants)
  {
    forall a, b | 0 <= a < b < |grants| ensures IdOf(grants[a]) != IdOf(grants[b]) {
      BeforeIsTotal(IdOf(grants[a]), IdOf(grants[b]));
    }
  }

  ghost predicate SameMembers(a: seq<Grant>, b: seq<Grant>) {
    forall g :: g in a <==> g in b
  }

  lemma FirstOfSorted(a: seq<Grant>, b: seq<Grant>)
    requires Sorted(a) && Sorted(b) && SameMembers(a, b) && a != []
    ensures b != [] && a[0] == b[0]
  {
    assert a[0] in b;
    assert b[0] in a;
    if a[0] != b[0] {
      var i :| 0 <= i < |a| && a[i] == b[0];
      var j :| 0 <= j < |b| && b[j] == a[0];
      BeforeIsTotal(IdOf(a[0]), IdOf(b[0]));
    }
  }

  /** One set of grants has one sorted listing. */
  lemma {:induction false} SortedIsUnique(a: seq<Grant>, b: seq<Grant>)
    requires Sorted(a) && Sorted(b) && SameMembers(a, b)
    ensures a == b
  {
    assert b != [] ==> b[0] in b;
    if a != [] {
      FirstOfSorted(a, b);
      SortedIsDistinct(a);
      SortedIsDistinct(b);
      forall g ensures g in a[1..] <==> g in b[1..] {
        assert g in a <==> g == a[0] || g in a[1..];
        assert g in b <==> g == b[0] || g in b[1..];
        assert a[0] !in a[1..] && b[0] !in b[1..];
      }
      SortedIsUnique(a[1..], b[1..]);
      assert a == [a[0]] + a[1..] && b == [b[0]] + b[1..];
    }
  }

  lemma CanonicalMembers(grants: seq<Grant>)
    requires DistinctIds(grants)
    ensures SameMembers(CanonicalGrants(grants), grants)
  {
    CanonicalIsSorted(grants);
    forall g ensures g in CanonicalGrants(grants) <==> g in grants {
      assert g in multiset(CanonicalGrants(grants)) <==> g in multiset(grants);
    }
  }

  /** The identity depends on the set of grants alone, and determines it. */
  lemma IdentityIsTheGrantSet(a: seq<Grant>, b: seq<Grant>)
    requires DistinctIds(a) && DistinctIds(b)
    ensures CanonicalGrants(a) == CanonicalGrants(b) <==> SameMembers(a, b)
  {
    CanonicalIsSorted(a);
    CanonicalIsSorted(b);
    CanonicalMembers(a);
    CanonicalMembers(b);
    if SameMembers(a, b) {
      SortedIsUnique(CanonicalGrants(a), CanonicalGrants(b));
    }
  }

  // ----- The manifest -----

  /** One authorized_keys line: forced to the snapshot and the grant, until the expiry second. */
  datatype Line = Line(expiry: int, snapshot: SnapshotId, grant: GrantId, publicKey: string)

  datatype Manifest = Manifest(header: SnapshotId, lines: seq<Line>)

  /** The whole second published for a deadline in nanoseconds: the second before its own. */
  function OpenSSHExpiry(deadline: int): (second: int) {
    deadline / SECOND - 1
  }

  /** OpenSSH accepts a key until the clock's whole second is past the published one. */
  predicate SshdAccepts(expiry: int, now: int) {
    now / SECOND <= expiry
  }

  /** A published key is accepted exactly before the deadline's own second begins: never at or after the deadline. */
  lemma ExpiryIsNeverLate(deadline: int, now: int)
    ensures SshdAccepts(OpenSSHExpiry(deadline), now) <==> now < deadline / SECOND * SECOND
    ensures SshdAccepts(OpenSSHExpiry(deadline), now) ==> now < deadline
  {
  }

  /** Publishing the deadline's own second instead would extend authority past every deadline. */
  lemma OwnSecondIsTooLate(deadline: int)
    ensures SshdAccepts(deadline / SECOND, deadline)
    ensures !SshdAccepts(OpenSSHExpiry(deadline), deadline)
  {
  }

  function LineFor(id: SnapshotId, g: Grant): (line: Line) {
    Line(OpenSSHExpiry(g.expiresAt), id, IdOf(g), g.authorizedPublicKey)
  }

  function RenderManifest(grants: seq<Grant>, id: SnapshotId): (m: Manifest)
    ensures |m.lines| == |grants|
  {
    Manifest(id, seq(|grants|, i requires 0 <= i < |grants| => LineFor(id, grants[i])))
  }

  function ManifestFor(id: SnapshotId): (m: Manifest) {
    RenderManifest(id, id)
  }

  /** The line admits the grant's key to that grant of that snapshot, until the second of its deadline begins. */
  ghost predicate Carries(line: Line, g: Grant, snapshot: SnapshotId) {
    && line.publicKey == g.authorizedPublicKey && line.grant == g.taskUID && line.snapshot == snapshot
    && (forall now :: SshdAccepts(line.expiry, now) <==> now < g.expiresAt / 1_000_000_000 * 1_000_000_000)
    && forall now :: SshdAccepts(line.expiry, now) ==> now < g.expiresAt
  }

  predicate DistinctLines(m: Manifest) {
    forall i, j :: 0 <= i < j < |m.lines| ==> m.lines[i].grant != m.lines[j].grant
  }

  ghost predicate EachLineCarries(m: Manifest, grants: seq<Grant>) {
    forall line :: line in m.lines ==> exists g :: g in grants && Carries(line, g, m.header)
  }

  ghost predicate EachGrantListed(m: Manifest, grants: seq<Grant>) {
    forall g :: g in grants ==> exists line :: line in m.lines && Carries(line, g, m.header)
  }

  /** The lines and the grants correspond one to one. */
  ghost predicate ListsGrants(m: Manifest, grants: seq<Grant>) {
    DistinctLines(m) && EachLineCarries(m, grants) && EachGrantListed(m, grants)
  }

  lemma LineCarries(id: SnapshotId, g: Grant)
    ensures Carries(LineFor(id, g), g, id)
  {
    forall now
      ensures SshdAccepts(OpenSSHExpiry(g.expiresAt), now) <==> now < g.expiresAt / 1_000_000_000 * 1_000_000_000
      ensures SshdAccepts(OpenSSHExpiry(g.expiresAt), now) ==> now < g.expiresAt
    {
      ExpiryIsNeverLate(g.expiresAt, now);
    }
    hide SshdAccepts, OpenSSHExpiry;
  }

  /** The manifest of a canonical sequence lists exactly its grants. */
  lemma ManifestListsGrants(id: SnapshotId)
    requires Sorted(id)
    ensures ManifestFor(id).header == id && ListsGrants(ManifestFor(id), id)
  {
    var m := ManifestFor(id);
    SortedIsDistinct(id);
    assert forall i :: 0 <= i < |id| ==> m.lines[i] == LineFor(id, id[i]);
    hide Carries, ManifestFor;
    forall line | line in m.lines ensures exists g :: g in id && Carries(line, g, id) {
      var i :| 0 <= i < |m.lines| && m.lines[i] == line;
      LineCarries(id, id[i]);
    }
    forall g | g in id ensures exists line :: line in m.lines && Carries(line, g, id) {
      var i :| 0 <= i < |id| && id[i] == g;
      LineCarries(id, g);
      assert m.lines[i] in m.lines;
    }
  }
}
