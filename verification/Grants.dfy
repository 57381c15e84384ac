/** Candidates become grants (internal/receiverauthorization/grant.go). Times are nanoseconds since an epoch. */
module Grants {
  import opened Text
  import opened Datasets
  import opened Compression
  import opened CommandAuthorize
  import SyncoidContract

  const SECOND := 1_000_000_000
  const MINUTE := 60 * SECOND
  const MAXIMUM_LEASE_HORIZON := 35 * MINUTE

  datatype Candidate = Candidate(
    taskUID: string,
    authorizedPublicKey: string,
    expiresAt: int,
    receiverDatasetPrefixes: seq<string>,
    policy: CommandPolicy)

  datatype Grant = Grant(taskUID: string, authorizedPublicKey: string, expiresAt: int, policy: CommandPolicy)

  datatype Rejection =
    | UidEmpty
    | KeyRejected
    | PrefixInvalid(prefix: string)
    | DestinationNotAllowed
    | DestinationInvalid
    | CompressionUnsupported
    | IdentifierInvalid
    | IdentifierMissing
    | LeaseExpired
    | LeaseTooLong
    | UidAmbiguous
    | KeyAmbiguous
    | LeaseLapsed

  datatype Outcome = Outcome(taskUID: string, rejection: Option<Rejection>)

  /** SSH key parsing: the canonical form of a key text, if it is one. */
  type KeyReader = string -> Option<string>

  // ----- One candidate -----

  function FirstInvalidPrefix(prefixes: seq<string>): (e: Option<Rejection>)
    ensures e.None? <==> forall prefix :: prefix in prefixes ==> ValidDatasetName(prefix)
  {
    if prefixes == [] then None
    else if !ValidDatasetName(prefixes[0]) then Some(PrefixInvalid(prefixes[0]))
    else FirstInvalidPrefix(prefixes[1..])
  }

  function CandidateRulesError(c: Candidate): (e: Option<Rejection>) {
    if FirstInvalidPrefix(c.receiverDatasetPrefixes).Some? then FirstInvalidPrefix(c.receiverDatasetPrefixes)
    else if c.receiverDatasetPrefixes == [] then None
    else if exists prefix :: prefix in c.receiverDatasetPrefixes && DatasetOrChild(c.policy.targetDataset, prefix) then None
    else Some(DestinationNotAllowed)
  }

  function GrantError(now: int, g: Grant, canon: KeyReader): (e: Option<Rejection>) {
    if g.taskUID == "" then Some(UidEmpty)
    else if canon(g.authorizedPublicKey).None? then Some(KeyRejected)
    else if !ValidDatasetName(g.policy.targetDataset) then Some(DestinationInvalid)
    else if g.policy.compression == "" || !CompressionSupported(g.policy.compression) then Some(CompressionUnsupported)
    else if g.policy.syncSnapshotIdentifier != "" && !SyncoidContract.ValidIdentifier(g.policy.syncSnapshotIdentifier) then
      Some(IdentifierInvalid)
    else if g.policy.allowSyncSnapshotDestroy && g.policy.syncSnapshotIdentifier == "" then Some(IdentifierMissing)
    else if g.expiresAt <= now then Some(LeaseExpired)
    else if g.expiresAt > now + MAXIMUM_LEASE_HORIZON then Some(LeaseTooLong)
    else None
  }

  function GrantOf(c: Candidate, key: string): (g: Grant) {
    Grant(c.taskUID, key, c.expiresAt, c.policy.(compression := CompressionDefault(c.policy.compression)))
  }

  function CompileCandidate(now: int, c: Candidate, key: string, canon: KeyReader): (r: Result<Grant, Rejection>) {
    match CandidateRulesError(c)
    case Some(e) => Err(e)
    case None =>
      match GrantError(now, GrantOf(c, key), canon)
      case Some(e) => Err(e)
      case None => Ok(GrantOf(c, key))
  }

  /** A candidate by itself. */
  function Judge(now: int, c: Candidate, canon: KeyReader): (r: Result<Grant, Rejection>) {
    if c.taskUID == "" then Err(UidEmpty)
    else match canon(c.authorizedPublicKey)
      case None => Err(KeyRejected)
      case Some(key) => CompileCandidate(now, c, key, canon)
  }

  // ----- A complete candidate list -----

  /** What a candidate claims for itself alone, if anything: its UID, or its canonical key. */
  function UidClaim(c: Candidate): (claim: Option<string>) {
    if c.taskUID == "" then None else Some(c.taskUID)
  }

  function KeyClaim(c: Candidate, canon: KeyReader): (claim: Option<string>) {
    canon(c.authorizedPublicKey)
  }

  function UidClaims(cs: seq<Candidate>): (claims: seq<Option<string>>)
    ensures |claims| == |cs| && forall i :: 0 <= i < |cs| ==> claims[i] == UidClaim(cs[i])
  {
    seq(|cs|, i requires 0 <= i < |cs| => UidClaim(cs[i]))
  }

  function KeyClaims(cs: seq<Candidate>, canon: KeyReader): (claims: seq<Option<string>>)
    ensures |claims| == |cs| && forall i :: 0 <= i < |cs| ==> claims[i] == KeyClaim(cs[i], canon)
  {
    seq(|cs|, i requires 0 <= i < |cs| => KeyClaim(cs[i], canon))
  }

  /** Another index claims the same. */
  predicate Clash(claims: seq<Option<string>>, i: nat)
    requires i < |claims|
  {
    claims[i].Some? && exists j :: 0 <= j < |claims| && j != i && claims[j] == claims[i]
  }

  /** What the whole list makes of its i-th candidate. */
  function Verdict(now: int, cs: seq<Candidate>, i: nat, canon: KeyReader): (r: Result<Grant, Rejection>)
    requires i < |cs|
  {
    if Clash(KeyClaims(cs, canon), i) then Err(KeyAmbiguous)
    else if Clash(UidClaims(cs), i) then Err(UidAmbiguous)
    else Judge(now, cs[i], canon)
  }

  function Rejected(r: Result<Grant, Rejection>): (e: Option<Rejection>) {
    match r case Ok(_) => None case Err(e) => Some(e)
  }

  function Granted(r: Result<Grant, Rejection>): (g: Option<Grant>) {
    match r case Ok(g) => Some(g) case Err(_) => None
  }

  function Outcomes(now: int, cs: seq<Candidate>, canon: KeyReader): (outcomes: seq<Outcome>)
    ensures |outcomes| == |cs|
  {
    seq(|cs|, i requires 0 <= i < |cs| => Outcome(cs[i].taskUID, Rejected(Verdict(now, cs, i, canon))))
  }

  /** The grants of the first n candidates, in input order. */
  function AcceptedUpTo(now: int, cs: seq<Candidate>, n: nat, canon: KeyReader): (grants: seq<Grant>)
    requires n <= |cs|
  {
    if n == 0 then []
    else match Verdict(now, cs, n - 1, canon)
      case Err(_) => AcceptedUpTo(now, cs, n - 1, canon)
      case Ok(g) => AcceptedUpTo(now, cs, n - 1, canon) + [g]
  }

  function Accepted(now: int, cs: seq<Candidate>, canon: KeyReader): (grants: seq<Grant>) {
    AcceptedUpTo(now, cs, |cs|, canon)
  }

  // ----- What compilation means -----

  /** A candidate that stands on its own. */
  predicate Eligible(now: int, c: Candidate, canon: KeyReader) {
    && c.taskUID != ""
    && canon(c.authorizedPublicKey).Some? && canon(canon(c.authorizedPublicKey).value).Some?
    && (forall prefix :: prefix in c.receiverDatasetPrefixes ==> ValidDatasetName(prefix))
    && (c.receiverDatasetPrefixes == []
        || exists prefix :: prefix in c.receiverDatasetPrefixes && DatasetOrChild(c.policy.targetDataset, prefix))
    && ValidDatasetName(c.policy.targetDataset)
    && CompressionSupported(c.policy.compression)
    && (c.policy.syncSnapshotIdentifier == "" || SyncoidContract.ValidIdentifier(c.policy.syncSnapshotIdentifier))
    && (c.policy.allowSyncSnapshotDestroy ==> c.policy.syncSnapshotIdentifier != "")
    && now < c.expiresAt <= now + MAXIMUM_LEASE_HORIZON
  }

  /** Another submitted index claims the same UID, or the same canonical key. */
  predicate SharesUid(cs: seq<Candidate>, i: nat)
    requires i < |cs|
  {
    exists j :: 0 <= j < |cs| && j != i && cs[j].taskUID == cs[i].taskUID != ""
  }

  predicate SharesKey(cs: seq<Candidate>, i: nat, canon: KeyReader)
    requires i < |cs|
  {
    exists j :: 0 <= j < |cs| && j != i && canon(cs[j].authorizedPublicKey) == canon(cs[i].authorizedPublicKey) != None
  }

  /** Index i shares nothing with any other submitted index, valid or not. */
  predicate Alone(cs: seq<Candidate>, i: nat, canon: KeyReader)
    requires i < |cs|
  {
    !SharesUid(cs, i) && !SharesKey(cs, i, canon)
  }

  lemma EmptyMeansNone(compression: string)
    ensures CompressionSupported(CompressionDefault(compression)) <==> CompressionSupported(compression)
    ensures CompressionDefault(compression) != ""
  {
  }

  lemma JudgedSound(now: int, c: Candidate, canon: KeyReader)
    ensures Judge(now, c, canon).Ok? <==> Eligible(now, c, canon)
    ensures Judge(now, c, canon).Ok? ==> Judge(now, c, canon).value == GrantOf(c, canon(c.authorizedPublicKey).value)
  {
    EmptyMeansNone(c.policy.compression);
    hide ValidDatasetName, DatasetOrChild, SyncoidContract.ValidIdentifier, CompressionSupported, CompressionDefault;
  }

  lemma ClashIsSharing(cs: seq<Candidate>, i: nat, canon: KeyReader)
    requires i < |cs|
    ensures Clash(UidClaims(cs), i) <==> SharesUid(cs, i)
    ensures Clash(KeyClaims(cs, canon), i) <==> SharesKey(cs, i, canon)
  {
    var uids, keys := UidClaims(cs), KeyClaims(cs, canon);
    if Clash(uids, i) {
      var j :| 0 <= j < |uids| && j != i && uids[j] == uids[i];
      assert cs[j].taskUID == cs[i].taskUID;
    }
    if SharesUid(cs, i) {
      var j :| 0 <= j < |cs| && j != i && cs[j].taskUID == cs[i].taskUID != "";
      assert uids[j] == uids[i];
    }
    if Clash(keys, i) {
      var j :| 0 <= j < |keys| && j != i && keys[j] == keys[i];
      assert canon(cs[j].authorizedPublicKey) == canon(cs[i].authorizedPublicKey);
    }
    if SharesKey(cs, i, canon) {
      var j :| 0 <= j < |cs| && j != i && canon(cs[j].authorizedPublicKey) == canon(cs[i].authorizedPublicKey) != None;
      assert keys[j] == keys[i];
    }
  }

  /** A candidate is accepted exactly when it stands on its own and no other submitted index shares its UID or key. */
  lemma AcceptedExactly(now: int, cs: seq<Candidate>, i: nat, canon: KeyReader)
    requires i < |cs|
    ensures Outcomes(now, cs, canon)[i].rejection.None? <==> Eligible(now, cs[i], canon) && Alone(cs, i, canon)
    ensures Outcomes(now, cs, canon)[i].rejection.None? ==>
      Verdict(now, cs, i, canon) == Ok(GrantOf(cs[i], canon(cs[i].authorizedPublicKey).value))
  {
    JudgedSound(now, cs[i], canon);
    ClashIsSharing(cs, i, canon);
    hide Judge, Eligible, Clash, SharesUid, SharesKey;
  }

  lemma {:induction false} AcceptedMembers(now: int, cs: seq<Candidate>, n: nat, canon: KeyReader, g: Grant)
    requires n <= |cs|
    ensures g in AcceptedUpTo(now, cs, n, canon) <==> exists i :: 0 <= i < n && Verdict(now, cs, i, canon) == Ok(g)
  {
    hide Verdict;
    if n > 0 {
      AcceptedMembers(now, cs, n - 1, canon, g);
    }
  }

  /** The grant says what the candidate said: the key in canonical form, every permission as it was, and "none" for a
      compression left empty. */
  predicate Speaks(g: Grant, c: Candidate, canon: KeyReader) {
    && g.taskUID == c.taskUID && g.expiresAt == c.expiresAt
    && canon(c.authorizedPublicKey) == Some(g.authorizedPublicKey)
    && g.policy.targetDataset == c.policy.targetDataset
    && g.policy.receiveUnmounted == c.policy.receiveUnmounted
    && g.policy.receiveResumable == c.policy.receiveResumable
    && g.policy.allowRollback == c.policy.allowRollback
    && g.policy.allowDestroy == c.policy.allowDestroy
    && g.policy.allowMount == c.policy.allowMount
    && g.policy.allowSyncSnapshotDestroy == c.policy.allowSyncSnapshotDestroy
    && g.policy.allowTargetSnapshotDestroy == c.policy.allowTargetSnapshotDestroy
    && g.policy.syncSnapshotIdentifier == c.policy.syncSnapshotIdentifier
    && g.policy.compression == if c.policy.compression == "" then "none" else c.policy.compression
  }

  lemma GrantSpeaks(c: Candidate, canon: KeyReader)
    requires canon(c.authorizedPublicKey).Some?
    ensures Speaks(GrantOf(c, canon(c.authorizedPublicKey).value), c, canon)
  {
  }

  lemma EligibleHasKey(now: int, c: Candidate, canon: KeyReader)
    requires Eligible(now, c, canon)
    ensures canon(c.authorizedPublicKey).Some?
  {
    hide ValidDatasetName, DatasetOrChild, SyncoidContract.ValidIdentifier, CompressionSupported;
  }

  /** What is granted for a candidate speaks for that candidate. */
  lemma VerdictSpeaks(now: int, cs: seq<Candidate>, i: nat, canon: KeyReader)
    requires i < |cs| && Verdict(now, cs, i, canon).Ok?
    ensures Speaks(Verdict(now, cs, i, canon).value, cs[i], canon)
  {
    hide Speaks, GrantOf, Judge, Alone;
    JudgedSound(now, cs[i], canon);
    AcceptedExactly(now, cs, i, canon);
    EligibleHasKey(now, cs[i], canon);
    GrantSpeaks(cs[i], canon);
  }

  /** The outcome of index i is empty. */
  predicate AcceptedAt(outcomes: seq<Outcome>, i: int) {
    0 <= i < |outcomes| && outcomes[i].rejection.None?
  }

  /** Every grant speaks for an accepted candidate. */
  ghost predicate EachSpeaks(grants: seq<Grant>, cs: seq<Candidate>, outcomes: seq<Outcome>, canon: KeyReader)
    requires |outcomes| == |cs|
  {
    forall g :: g in grants ==> exists i :: AcceptedAt(outcomes, i) && Speaks(g, cs[i], canon)
  }

  /** Every accepted candidate has a grant that speaks for it. */
  ghost predicate EachIsSpokenFor(grants: seq<Grant>, cs: seq<Candidate>, outcomes: seq<Outcome>, canon: KeyReader)
    requires |outcomes| == |cs|
  {
    forall i :: AcceptedAt(outcomes, i) ==> exists g :: g in grants && Speaks(g, cs[i], canon)
  }

  ghost predicate SpeakFor(grants: seq<Grant>, cs: seq<Candidate>, outcomes: seq<Outcome>, canon: KeyReader)
    requires |outcomes| == |cs|
  {
    EachSpeaks(grants, cs, outcomes, canon) && EachIsSpokenFor(grants, cs, outcomes, canon)
  }

  lemma CandidateSpokenFor(g: Grant, grants: seq<Grant>, cs: seq<Candidate>, outcomes: seq<Outcome>, canon: KeyReader)
    returns (i: int)
    requires |outcomes| == |cs| && SpeakFor(grants, cs, outcomes, canon) && g in grants
    ensures AcceptedAt(outcomes, i) && Speaks(g, cs[i], canon)
  {
    hide EachIsSpokenFor, Speaks;
    i :| AcceptedAt(outcomes, i) && Speaks(g, cs[i], canon);
  }

  lemma GrantSpeaking(i: int, grants: seq<Grant>, cs: seq<Candidate>, outcomes: seq<Outcome>, canon: KeyReader)
    returns (g: Grant)
    requires |outcomes| == |cs| && SpeakFor(grants, cs, outcomes, canon) && AcceptedAt(outcomes, i)
    ensures g in grants && Speaks(g, cs[i], canon)
  {
    hide EachSpeaks, Speaks;
    g :| g in grants && Speaks(g, cs[i], canon);
  }

  lemma AcceptedSpeak(now: int, cs: seq<Candidate>, canon: KeyReader)
    ensures SpeakFor(Accepted(now, cs, canon), cs, Outcomes(now, cs, canon), canon)
  {
    var outcomes, grants := Outcomes(now, cs, canon), Accepted(now, cs, canon);
    hide Speaks, Verdict;
    forall g | g in grants ensures exists i :: AcceptedAt(outcomes, i) && Speaks(g, cs[i], canon) {
      AcceptedMembers(now, cs, |cs|, canon, g);
      var i :| 0 <= i < |cs| && Verdict(now, cs, i, canon) == Ok(g);
      VerdictSpeaks(now, cs, i, canon);
      assert AcceptedAt(outcomes, i);
    }
    forall i | AcceptedAt(outcomes, i) ensures exists g :: g in grants && Speaks(g, cs[i], canon) {
      var g := Verdict(now, cs, i, canon).value;
      VerdictSpeaks(now, cs, i, canon);
      AcceptedMembers(now, cs, |cs|, canon, g);
    }
  }

  /** What a rejection says of the candidate by itself. */
  predicate Deserved(e: Rejection, now: int, c: Candidate, canon: KeyReader) {
    match e
    case UidEmpty => c.taskUID == ""
    case KeyRejected => canon(c.authorizedPublicKey).None? || canon(canon(c.authorizedPublicKey).value).None?
    case PrefixInvalid(prefix) => prefix in c.receiverDatasetPrefixes && !ValidDatasetName(prefix)
    case DestinationNotAllowed =>
      c.receiverDatasetPrefixes != []
      && forall prefix :: prefix in c.receiverDatasetPrefixes ==> !DatasetOrChild(c.policy.targetDataset, prefix)
    case DestinationInvalid => !ValidDatasetName(c.policy.targetDataset)
    case CompressionUnsupported => !CompressionSupported(c.policy.compression)
    case IdentifierInvalid =>
      c.policy.syncSnapshotIdentifier != "" && !SyncoidContract.ValidIdentifier(c.policy.syncSnapshotIdentifier)
    case IdentifierMissing => c.policy.allowSyncSnapshotDestroy && c.policy.syncSnapshotIdentifier == ""
    case LeaseExpired => c.expiresAt <= now
    case LeaseTooLong => c.expiresAt > now + 35 * 60 * 1_000_000_000
    case _ => false
  }

  lemma {:induction false} InvalidPrefixIsThere(prefixes: seq<string>)
    ensures var e := FirstInvalidPrefix(prefixes);
      e.Some? ==> e.value.PrefixInvalid? && e.value.prefix in prefixes && !ValidDatasetName(e.value.prefix)
  {
    hide ValidDatasetName;
    if prefixes != [] {
      InvalidPrefixIsThere(prefixes[1..]);
    }
  }

  lemma JudgedDeservedly(now: int, c: Candidate, canon: KeyReader)
    ensures Judge(now, c, canon).Err? ==> Deserved(Judge(now, c, canon).error, now, c, canon)
  {
    EmptyMeansNone(c.policy.compression);
    InvalidPrefixIsThere(c.receiverDatasetPrefixes);
    hide ValidDatasetName, DatasetOrChild, SyncoidContract.ValidIdentifier, CompressionSupported, CompressionDefault,
      FirstInvalidPrefix;
  }

  /** Every rejection is true of its candidate; a shared key is reported before a shared UID, and both before anything else. */
  lemma RejectedDeservedly(now: int, cs: seq<Candidate>, i: nat, canon: KeyReader)
    requires i < |cs| && Outcomes(now, cs, canon)[i].rejection.Some?
    ensures var e := Outcomes(now, cs, canon)[i].rejection.value;
      if SharesKey(cs, i, canon) then e == KeyAmbiguous
      else if SharesUid(cs, i) then e == UidAmbiguous
      else Deserved(e, now, cs[i], canon)
  {
    JudgedDeservedly(now, cs[i], canon);
    ClashIsSharing(cs, i, canon);
    hide Deserved, Judge, Clash, SharesKey, SharesUid;
  }

  /** Grants that no two tasks and no two keys share. */
  predicate DistinctGrants(grants: seq<Grant>) {
    forall a, b :: 0 <= a < b < |grants| ==>
      grants[a].taskUID != grants[b].taskUID && grants[a].authorizedPublicKey != grants[b].authorizedPublicKey
  }

  lemma VerdictLease(now: int, cs: seq<Candidate>, i: nat, canon: KeyReader)
    requires i < |cs| && Verdict(now, cs, i, canon).Ok?
    ensures var g := Verdict(now, cs, i, canon).value;
      && g.taskUID == cs[i].taskUID != ""
      && KeyClaim(cs[i], canon) == Some(g.authorizedPublicKey)
      && g.expiresAt == cs[i].expiresAt && now < g.expiresAt <= now + MAXIMUM_LEASE_HORIZON
      && Alone(cs, i, canon)
  {
    AcceptedExactly(now, cs, i, canon);
    JudgedSound(now, cs[i], canon);
    hide Judge, DatasetOrChild, ValidDatasetName, CompressionSupported, SyncoidContract.ValidIdentifier;
  }

  lemma NewcomerDiffers(now: int, cs: seq<Candidate>, n: nat, canon: KeyReader, g: Grant)
    requires n < |cs| && Verdict(now, cs, n, canon).Ok? && g in AcceptedUpTo(now, cs, n, canon)
    ensures var h := Verdict(now, cs, n, canon).value;
      g.taskUID != h.taskUID && g.authorizedPublicKey != h.authorizedPublicKey
  {
    AcceptedMembers(now, cs, n, canon, g);
    hide Verdict, AcceptedUpTo;
    var i :| 0 <= i < n && Verdict(now, cs, i, canon) == Ok(g);
    VerdictLease(now, cs, i, canon);
    VerdictLease(now, cs, n, canon);
  }

  lemma {:induction false} AcceptedDistinct(now: int, cs: seq<Candidate>, n: nat, canon: KeyReader)
    requires n <= |cs|
    ensures DistinctGrants(AcceptedUpTo(now, cs, n, canon))
    ensures forall g :: g in AcceptedUpTo(now, cs, n, canon) ==>
      g.taskUID != "" && now < g.expiresAt <= now + MAXIMUM_LEASE_HORIZON
  {
    hide Verdict;
    if n > 0 {
      AcceptedDistinct(now, cs, n - 1, canon);
      var earlier := AcceptedUpTo(now, cs, n - 1, canon);
      if Verdict(now, cs, n - 1, canon).Ok? {
        VerdictLease(now, cs, n - 1, canon);
        forall a | 0 <= a < |earlier|
          ensures var h := Verdict(now, cs, n - 1, canon).value;
            earlier[a].taskUID != h.taskUID && earlier[a].authorizedPublicKey != h.authorizedPublicKey
        {
          NewcomerDiffers(now, cs, n - 1, canon, earlier[a]);
        }
      }
    }
  }

  // ----- The loops -----

  function OwnersOf(owners: map<string, seq<nat>>, k: string): (indices: seq<nat>) {
    if k in owners then owners[k] else []
  }

  predicate Increasing(indices: seq<nat>) {
    forall a, b :: 0 <= a < b < |indices| ==> indices[a] < indices[b]
  }

  /** Who claimed what among the first n indices. */
  ghost predicate Recorded(owners: map<string, seq<nat>>, claims: seq<Option<string>>, n: nat)
    requires n <= |claims|
  {
    && (forall k, i: nat {:trigger i in OwnersOf(owners, k)} :: i in OwnersOf(owners, k) ==> i < n && claims[i] == Some(k))
    && (forall i: nat :: i < n && claims[i].Some? ==> i in OwnersOf(owners, claims[i].value))
    && (forall k :: Increasing(OwnersOf(owners, k)))
  }

  lemma IncreasingSnoc(earlier: seq<nat>, i: nat)
    requires Increasing(earlier) && forall j :: j in earlier ==> j < i
    ensures Increasing(earlier + [i])
  {
    assert forall a :: 0 <= a < |earlier| ==> earlier[a] in earlier;
  }

  lemma RecordedSnoc(owners: map<string, seq<nat>>, r: map<string, seq<nat>>, claims: seq<Option<string>>, i: nat)
    requires i < |claims| && claims[i].Some? && Recorded(owners, claims, i)
    requires forall k :: OwnersOf(r, k) == if claims[i] == Some(k) then OwnersOf(owners, k) + [i] else OwnersOf(owners, k)
    ensures Recorded(r, claims, i + 1)
  {
    hide Increasing, OwnersOf;
    forall k ensures Increasing(OwnersOf(r, k)) {
      IncreasingSnoc(OwnersOf(owners, k), i);
    }
    forall k, j: nat | j in OwnersOf(r, k) ensures j < i + 1 && claims[j] == Some(k) {
      assert j in OwnersOf(owners, k) || (j == i && claims[i] == Some(k));
    }
  }

  method Record(owners: map<string, seq<nat>>, claim: Option<string>, ghost claims: seq<Option<string>>, i: nat)
    returns (r: map<string, seq<nat>>)
    requires i < |claims| && claims[i] == claim && Recorded(owners, claims, i)
    ensures Recorded(r, claims, i + 1)
  {
    if claim.None? {
      return owners;
    }
    r := owners[claim.value := OwnersOf(owners, claim.value) + [i]];
    RecordedSnoc(owners, r, claims, i);
  }

  lemma NothingRecorded(claims: seq<Option<string>>)
    ensures Recorded(map[], claims, 0)
  {
    assert forall k :: OwnersOf(map[], k) == [];
  }

  /** Two owners of one claim are two clashing indices, and the other way round. */
  lemma OwnersClash(owners: map<string, seq<nat>>, claims: seq<Option<string>>, i: nat)
    requires i < |claims| && Recorded(owners, claims, |claims|) && claims[i].Some?
    ensures Clash(claims, i) <==> |OwnersOf(owners, claims[i].value)| >= 2
  {
    var mine := OwnersOf(owners, claims[i].value);
    assert i in mine;
    assert Increasing(mine);
    var a :| 0 <= a < |mine| && mine[a] == i;
    if |mine| >= 2 {
      var b := if a == 0 then 1 else 0;
      var j := mine[b];
      assert j in mine && j != i;
      assert claims[j] == claims[i];
    }
    if Clash(claims, i) {
      var j: nat :| j < |claims| && j != i && claims[j] == claims[i];
      assert j in mine;
    }
  }

  lemma OwnersAreClaimants(owners: map<string, seq<nat>>, claims: seq<Option<string>>, k: string)
    requires Recorded(owners, claims, |claims|)
    ensures forall i: nat :: i in OwnersOf(owners, k) ==> i < |claims|
    ensures forall i: nat :: i < |claims| ==> (claims[i] == Some(k) <==> i in OwnersOf(owners, k))
    ensures forall i :: 0 <= i < |claims| && claims[i] == Some(k) ==> (Clash(claims, i) <==> |OwnersOf(owners, k)| >= 2)
    ensures forall i :: 0 <= i < |claims| && claims[i] == Some(k) ==> k in owners
  {
    hide Increasing;
    forall i | 0 <= i < |claims| && claims[i] == Some(k)
      ensures Clash(claims, i) <==> |OwnersOf(owners, k)| >= 2
      ensures k in owners
    {
      OwnersClash(owners, claims, i);
      assert i in OwnersOf(owners, k);
    }
  }

  method RejectOwners(indices: seq<nat>, reason: Rejection, outcomes: seq<Outcome>, grants: seq<Option<Grant>>)
    returns (newOutcomes: seq<Outcome>, newGrants: seq<Option<Grant>>)
    requires |grants| == |outcomes| && forall i :: i in indices ==> i < |outcomes|
    ensures |newGrants| == |newOutcomes| == |outcomes|
    ensures forall i :: 0 <= i < |outcomes| ==>
      newOutcomes[i] == (if i in indices then outcomes[i].(rejection := Some(reason)) else outcomes[i])
    ensures forall i :: 0 <= i < |outcomes| ==> newGrants[i] == (if i in indices then None else grants[i])
  {
    newOutcomes, newGrants := outcomes, grants;
    for n := 0 to |indices|
      invariant |newGrants| == |newOutcomes| == |outcomes|
      invariant forall i :: 0 <= i < |outcomes| ==>
        newOutcomes[i] == (if i in indices[..n] then outcomes[i].(rejection := Some(reason)) else outcomes[i])
      invariant forall i :: 0 <= i < |outcomes| ==> newGrants[i] == (if i in indices[..n] then None else grants[i])
    {
      var owner := indices[n];
      assert owner in indices && indices[..n + 1] == indices[..n] + [owner];
      newOutcomes := newOutcomes[owner := newOutcomes[owner].(rejection := Some(reason))];
      newGrants := newGrants[owner := None];
    }
    assert indices[..|indices|] == indices;
  }

  predicate Done(claim: Option<string>, left: set<string>) {
    claim.Some? && claim.value !in left
  }

  /** Ranges over the owner map in whatever order it comes. */
  method RejectAmbiguous(owners: map<string, seq<nat>>, ghost claims: seq<Option<string>>, reason: Rejection,
                         outcomes: seq<Outcome>, grants: seq<Option<Grant>>)
    returns (newOutcomes: seq<Outcome>, newGrants: seq<Option<Grant>>)
    requires |grants| == |outcomes| == |claims| && Recorded(owners, claims, |claims|)
    ensures |newGrants| == |newOutcomes| == |outcomes|
    ensures forall i :: 0 <= i < |outcomes| ==>
      newOutcomes[i] == (if Clash(claims, i) then outcomes[i].(rejection := Some(reason)) else outcomes[i])
    ensures forall i :: 0 <= i < |outcomes| ==> newGrants[i] == (if Clash(claims, i) then None else grants[i])
  {
    newOutcomes, newGrants := outcomes, grants;
    var left := owners.Keys;
    forall i | 0 <= i < |claims| && Clash(claims, i) ensures claims[i].value in owners {
      OwnersAreClaimants(owners, claims, claims[i].value);
    }
    assert forall i :: 0 <= i < |claims| && Clash(claims, i) ==> !Done(claims[i], left) && Done(claims[i], {});
    hide Recorded, Clash;
    while left != {}
      invariant left <= owners.Keys
      invariant |newGrants| == |newOutcomes| == |outcomes|
      invariant forall i :: 0 <= i < |outcomes| ==>
        newOutcomes[i] == (if Clash(claims, i) && Done(claims[i], left) then outcomes[i].(rejection := Some(reason)) else outcomes[i])
      invariant forall i :: 0 <= i < |outcomes| ==>
        newGrants[i] == (if Clash(claims, i) && Done(claims[i], left) then None else grants[i])
      decreases left
    {
      var k :| k in left;
      left := left - {k};
      OwnersAreClaimants(owners, claims, k);
      if |owners[k]| < 2 {
        continue;
      }
      newOutcomes, newGrants := RejectOwners(owners[k], reason, newOutcomes, newGrants);
    }
  }

  method Collect(now: int, candidates: seq<Candidate>, canon: KeyReader, compiled: seq<Option<Grant>>)
    returns (grants: seq<Grant>)
    requires |compiled| == |candidates|
    requires forall i :: 0 <= i < |compiled| ==> compiled[i] == Granted(Verdict(now, candidates, i, canon))
    ensures grants == Accepted(now, candidates, canon)
  {
    hide Verdict;
    grants := [];
    for i := 0 to |compiled|
      invariant grants == AcceptedUpTo(now, candidates, i, canon)
    {
      if compiled[i].Some? {
        grants := grants + [compiled[i].value];
      }
    }
  }

  lemma CompiledAsMeant(now: int, cs: seq<Candidate>, canon: KeyReader)
    ensures SpeakFor(Accepted(now, cs, canon), cs, Outcomes(now, cs, canon), canon) && DistinctGrants(Accepted(now, cs, canon))
    ensures var outcomes := Outcomes(now, cs, canon); forall i :: 0 <= i < |cs| ==>
      outcomes[i].taskUID == cs[i].taskUID
      && (AcceptedAt(outcomes, i) <==> Eligible(now, cs[i], canon) && Alone(cs, i, canon))
  {
    AcceptedSpeak(now, cs, canon);
    AcceptedDistinct(now, cs, |cs|, canon);
    hide SpeakFor, DistinctGrants, Eligible, Alone, Verdict;
    forall i | 0 <= i < |cs|
      ensures AcceptedAt(Outcomes(now, cs, canon), i) <==> Eligible(now, cs[i], canon) && Alone(cs, i, canon)
    {
      AcceptedExactly(now, cs, i, canon);
    }
  }

  method CompileCandidates(now: int, candidates: seq<Candidate>, canon: KeyReader)
    returns (outcomes: seq<Outcome>, grants: seq<Grant>)
    ensures outcomes == Outcomes(now, candidates, canon)
    ensures grants == Accepted(now, candidates, canon)
    ensures |outcomes| == |candidates| && SpeakFor(grants, candidates, outcomes, canon) && DistinctGrants(grants)
    ensures forall i :: 0 <= i < |candidates| ==>
      outcomes[i].taskUID == candidates[i].taskUID
      && (AcceptedAt(outcomes, i) <==> Eligible(now, candidates[i], canon) && Alone(candidates, i, canon))
  {
    outcomes := [];
    var compiled: seq<Option<Grant>> := [];
    var keyOwners: map<string, seq<nat>>, uidOwners: map<string, seq<nat>> := map[], map[];
    hide CandidateRulesError, GrantError, GrantOf, Recorded;
    ghost var uids, keys := UidClaims(candidates), KeyClaims(candidates, canon);
    NothingRecorded(uids);
    NothingRecorded(keys);
    for i := 0 to |candidates|
      invariant |outcomes| == |compiled| == i
      invariant Recorded(uidOwners, uids, i) && Recorded(keyOwners, keys, i)
      invariant forall j :: 0 <= j < i ==>
        && outcomes[j] == Outcome(candidates[j].taskUID, Rejected(Judge(now, candidates[j], canon)))
        && compiled[j] == Granted(Judge(now, candidates[j], canon))
    {
      var candidate := candidates[i];
      uidOwners := Record(uidOwners, UidClaim(candidate), uids, i);
      var publicKey := canon(candidate.authorizedPublicKey);
      keyOwners := Record(keyOwners, publicKey, keys, i);
      if candidate.taskUID == "" {
        outcomes, compiled := outcomes + [Outcome(candidate.taskUID, Some(UidEmpty))], compiled + [None];
        continue;
      }
      if publicKey.None? {
        outcomes, compiled := outcomes + [Outcome(candidate.taskUID, Some(KeyRejected))], compiled + [None];
        continue;
      }
      match CompileCandidate(now, candidate, publicKey.value, canon) {
        case Err(e) =>
          outcomes, compiled := outcomes + [Outcome(candidate.taskUID, Some(e))], compiled + [None];
        case Ok(g) =>
          outcomes, compiled := outcomes + [Outcome(candidate.taskUID, None)], compiled + [Some(g)];
      }
    }
    outcomes, compiled := RejectAmbiguous(uidOwners, uids, UidAmbiguous, outcomes, compiled);
    outcomes, compiled := RejectAmbiguous(keyOwners, keys, KeyAmbiguous, outcomes, compiled);
    grants := Collect(now, candidates, canon, compiled);
    CompiledAsMeant(now, candidates, canon);
  }

  // ----- Isolation and order -----

  function Inserted<T>(xs: seq<T>, k: nat, x: T): (ys: seq<T>)
    requires k <= |xs|
  {
    xs[..k] + [x] + xs[k..]
  }

  lemma InsertedClash(claims: seq<Option<string>>, more: seq<Option<string>>, k: nat, claim: Option<string>, i: nat)
    requires k <= |claims| && i < |claims| && more == Inserted(claims, k, claim)
    requires claim.None? || claim != claims[i]
    ensures Clash(more, if i < k then i else i + 1) <==> Clash(claims, i)
  {
    var at := if i < k then i else i + 1;
    if Clash(claims, i) {
      var j :| 0 <= j < |claims| && j != i && claims[j] == claims[i];
      assert more[if j < k then j else j + 1] == more[at];
    }
    if Clash(more, at) {
      var j :| 0 <= j < |more| && j != at && more[j] == more[at];
      assert claims[if j < k then j else j - 1] == claims[i];
    }
  }

  /** Adding a candidate that shares no UID or key leaves every other verdict as it was. */
  lemma AddingIsIsolated(now: int, cs: seq<Candidate>, k: nat, c: Candidate, i: nat, canon: KeyReader)
    requires k <= |cs| && i < |cs|
    requires UidClaim(c).None? || UidClaim(c) != UidClaim(cs[i])
    requires KeyClaim(c, canon).None? || KeyClaim(c, canon) != KeyClaim(cs[i], canon)
    ensures var more := Inserted(cs, k, c); var at := if i < k then i else i + 1;
      Verdict(now, more, at, canon) == Verdict(now, cs, i, canon)
  {
    var more, at := Inserted(cs, k, c), if i < k then i else i + 1;
    InsertedClash(UidClaims(cs), UidClaims(more), k, UidClaim(c), i);
    InsertedClash(KeyClaims(cs, canon), KeyClaims(more, canon), k, KeyClaim(c, canon), i);
    assert more[at] == cs[i];
    hide Judge, Clash;
  }

  /** `p` and `q` undo each other on the first n indices. */
  ghost predicate Shuffle(p: seq<nat>, q: seq<nat>, n: nat) {
    && |p| == |q| == n
    && (forall i :: 0 <= i < n ==> p[i] < n && q[i] < n)
    && forall i :: 0 <= i < n ==> q[p[i]] == i && p[q[i]] == i
  }

  function Shuffled<T>(xs: seq<T>, p: seq<nat>): (ys: seq<T>)
    requires |p| == |xs| && forall i :: 0 <= i < |p| ==> p[i] < |xs|
    ensures |ys| == |xs| && forall i :: 0 <= i < |xs| ==> ys[i] == xs[p[i]]
  {
    seq(|xs|, i requires 0 <= i < |xs| => xs[p[i]])
  }

  lemma ShuffledClash(claims: seq<Option<string>>, p: seq<nat>, q: seq<nat>, i: nat)
    requires Shuffle(p, q, |claims|) && i < |claims|
    ensures Clash(Shuffled(claims, p), i) <==> Clash(claims, p[i])
  {
    var other := Shuffled(claims, p);
    if Clash(claims, p[i]) {
      var j :| 0 <= j < |claims| && j != p[i] && claims[j] == claims[p[i]];
      assert other[q[j]] == other[i];
    }
    if Clash(other, i) {
      var j :| 0 <= j < |other| && j != i && other[j] == other[i];
      assert q[p[j]] == j && claims[p[j]] == claims[p[i]];
    }
  }

  /** Reordering the candidates reorders the verdicts and nothing else. */
  lemma ReorderedVerdicts(now: int, cs: seq<Candidate>, p: seq<nat>, q: seq<nat>, i: nat, canon: KeyReader)
    requires Shuffle(p, q, |cs|) && i < |cs|
    ensures Verdict(now, Shuffled(cs, p), i, canon) == Verdict(now, cs, p[i], canon)
  {
    var other := Shuffled(cs, p);
    assert UidClaims(other) == Shuffled(UidClaims(cs), p);
    assert KeyClaims(other, canon) == Shuffled(KeyClaims(cs, canon), p);
    ShuffledClash(UidClaims(cs), p, q, i);
    ShuffledClash(KeyClaims(cs, canon), p, q, i);
    hide Judge, Clash;
  }

  /** The accepted grants are the same set in every order of submission. */
  lemma ReorderedGrants(now: int, cs: seq<Candidate>, p: seq<nat>, q: seq<nat>, g: Grant, canon: KeyReader)
    requires Shuffle(p, q, |cs|)
    ensures g in Accepted(now, cs, canon) <==> g in Accepted(now, Shuffled(cs, p), canon)
  {
    var other := Shuffled(cs, p);
    AcceptedMembers(now, cs, |cs|, canon, g);
    AcceptedMembers(now, other, |cs|, canon, g);
    hide Verdict, AcceptedUpTo;
    if i :| 0 <= i < |cs| && Verdict(now, cs, i, canon) == Ok(g) {
      ReorderedVerdicts(now, cs, p, q, q[i], canon);
    }
    if i :| 0 <= i < |cs| && Verdict(now, other, i, canon) == Ok(g) {
      ReorderedVerdicts(now, cs, p, q, i, canon);
    }
  }
}
