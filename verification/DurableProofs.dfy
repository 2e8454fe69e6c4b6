/** Durable proof state, its revocation consistency, and exact lookup (broker/deriv_proof_store.py, broker/deriv_proof_registry.py). */
module DurableProofs {
  import opened Prelude
  import opened Sorting
  import opened Evidence
  import opened Registration
  import opened Registry

  function RevocationIdOf(r: Revocation): string { r.revocationId }

  predicate Disagree(r: Revocation, s: Revocation) {
    r.target == s.target && r.targetId == s.targetId && (r.reason != s.reason || r.supersededBy != s.supersededBy)
  }

  /** No two records about one target contradict each other. */
  predicate Consistent(revocations: seq<Revocation>) {
    forall i, j :: 0 <= i < j < |revocations| ==> !Disagree(revocations[i], revocations[j])
  }

  datatype DurableState = DurableState(registry: ProofRegistry, revocations: seq<Revocation>)
  {
    /** What the constructor accepts. */
    predicate Valid() {
      && registry.Valid()
      && (forall i :: 0 <= i < |revocations| ==> revocations[i].Valid())
      && revocations == Sorted(revocations, RevocationIdOf) && Distinct(RevocationIds(revocations))
      && Consistent(revocations)
    }
  }

  const EMPTY_STATE := DurableState(ProofRegistry([]), [])

  type Targets = map<(Target, string), Revocation>

  function TargetOf(r: Revocation): (Target, string) {
    (r.target, r.targetId)
  }

  /** The dictionary holds, for every target among the first n records, one that agrees with all of them. */
  ghost predicate Tracks(targets: Targets, revocations: seq<Revocation>, n: nat)
    requires n <= |revocations|
  {
    && (forall i :: 0 <= i < n ==> TargetOf(revocations[i]) in targets && !Disagree(revocations[i], targets[TargetOf(revocations[i])]))
    && (forall key :: key in targets ==> TargetOf(targets[key]) == key && targets[key] in revocations[..n])
    && forall i, j :: 0 <= i < j < n ==> !Disagree(revocations[i], revocations[j])
  }

  predicate Agrees(targets: Targets, r: Revocation) {
    TargetOf(r) in targets ==> targets[TargetOf(r)].reason == r.reason && targets[TargetOf(r)].supersededBy == r.supersededBy
  }

  lemma TracksStep(targets: Targets, revocations: seq<Revocation>, n: nat)
    requires n < |revocations| && Tracks(targets, revocations, n)
    ensures if Agrees(targets, revocations[n]) then Tracks(targets[TargetOf(revocations[n]) := revocations[n]], revocations, n + 1)
            else !Consistent(revocations)
  {
    var r := revocations[n];
    assert revocations[..n + 1] == revocations[..n] + [r];
    if !Agrees(targets, r) {
      var i :| 0 <= i < n && revocations[i] == targets[TargetOf(r)];
      assert Disagree(revocations[i], revocations[n]);
    }
  }

  /** The targets dictionary: comparing each record with the latest of its target finds every contradiction. */
  method CheckTargets(revocations: seq<Revocation>) returns (ok: bool)
    ensures ok <==> Consistent(revocations)
  {
    var targets: Targets := map[];
    for n := 0 to |revocations|
      invariant Tracks(targets, revocations, n)
    {
      TracksStep(targets, revocations, n);
      hide Tracks, Consistent;
      var item := revocations[n];
      if !Agrees(targets, item) {
        return false;
      }
      targets := targets[TargetOf(item) := item];
    }
    return true;
  }

  ghost predicate KnowsIds(byId: map<string, Revocation>, revocations: seq<Revocation>, n: nat)
    requires n <= |revocations|
  {
    && (forall i :: 0 <= i < n ==> revocations[i].revocationId in byId)
    && (forall id :: id in byId ==> exists i :: 0 <= i < n && revocations[i].revocationId == id)
    && forall i, j :: 0 <= i < j < n ==> revocations[i].revocationId != revocations[j].revocationId
  }

  lemma KnowsIdsStep(byId: map<string, Revocation>, revocations: seq<Revocation>, n: nat)
    requires n < |revocations| && KnowsIds(byId, revocations, n)
    ensures if revocations[n].revocationId in byId then !Distinct(RevocationIds(revocations))
            else KnowsIds(byId[revocations[n].revocationId := revocations[n]], revocations, n + 1)
  {
    var id := revocations[n].revocationId;
    if id in byId {
      var i :| 0 <= i < n && revocations[i].revocationId == id;
      assert RevocationIds(revocations)[i] == RevocationIds(revocations)[n];
    } else {
      var more := byId[id := revocations[n]];
      forall x | x in more ensures exists i :: 0 <= i < n + 1 && revocations[i].revocationId == x {
        if x != id {
          var i :| 0 <= i < n && revocations[i].revocationId == x;
        } else {
          assert revocations[n].revocationId == x;
        }
      }
    }
  }

  /** _revocations_conflict: one pass over both dictionaries finds a reused identity or a contradiction. */
  method RevocationsConflict(revocations: seq<Revocation>) returns (conflict: bool)
    ensures conflict <==> !Distinct(RevocationIds(revocations)) || !Consistent(revocations)
  {
    var byId: map<string, Revocation>, byTarget: Targets := map[], map[];
    for n := 0 to |revocations|
      invariant KnowsIds(byId, revocations, n) && Tracks(byTarget, revocations, n)
    {
      KnowsIdsStep(byId, revocations, n);
      TracksStep(byTarget, revocations, n);
      hide KnowsIds, Tracks, Consistent, Distinct;
      var record := revocations[n];
      if record.revocationId in byId {
        return true;
      }
      byId := byId[record.revocationId := record];
      if !Agrees(byTarget, record) {
        return true;
      }
      byTarget := byTarget[TargetOf(record) := record];
    }
    return false;
  }

  // ---------------------------------------------------------------- lookup

  datatype LookupState = NoEntry | ActiveEntry | RevokedEntry | ConflictingState

  datatype LookupResult = LookupResult(state: LookupState, entry: Option<Entry>)

  function Matches(entries: seq<Entry>, a: Applicability): (r: seq<Entry>)
    ensures forall e :: e in r <==> e in entries && e.request.lineage.applicability == a
  {
    if entries == [] then []
    else
      var rest := Matches(Init(entries), a);
      assert entries == Init(entries) + [Last(entries)];
      if Last(entries).request.lineage.applicability == a then rest + [Last(entries)] else rest
  }

  predicate EntryRevoked(e: Entry, revocations: seq<Revocation>) {
    || SomeHit(revocations, CandidateTarget, e.request.lineage.candidateId)
    || SomeHit(revocations, VerificationTarget, e.request.verificationId)
    || SomeHit(revocations, ProofTarget, e.request.proofId)
  }

  /** The revocation names this entry: its candidate, its verification or its proof. */
  predicate Names(r: Revocation, e: Entry) {
    || (r.target == CandidateTarget && r.targetId == e.request.lineage.candidateId)
    || (r.target == VerificationTarget && r.targetId == e.request.verificationId)
    || (r.target == ProofTarget && r.targetId == e.request.proofId)
  }

  lemma EntryRevokedIff(e: Entry, revocations: seq<Revocation>)
    ensures EntryRevoked(e, revocations) <==> exists r :: r in revocations && Names(r, e)
  {
    SomeHitIff(revocations, CandidateTarget, e.request.lineage.candidateId);
    SomeHitIff(revocations, VerificationTarget, e.request.verificationId);
    SomeHitIff(revocations, ProofTarget, e.request.proofId);
    hide SomeHit;
  }

  lemma SomeHitIff(revocations: seq<Revocation>, target: Target, id: string)
    ensures SomeHit(revocations, target, id) <==> exists r :: r in revocations && r.target == target && r.targetId == id
  {
    if SomeHit(revocations, target, id) {
      var i :| 0 <= i < |revocations| && Hits(revocations[i], target, id);
      assert revocations[i] in revocations;
    }
    if r :| r in revocations && r.target == target && r.targetId == id {
      var i :| 0 <= i < |revocations| && revocations[i] == r;
      assert Hits(revocations[i], target, id);
    }
  }

  /** lookup_deriv_proof_registry */
  function Lookup(registry: ProofRegistry, a: Applicability, revocations: seq<Revocation>): LookupResult {
    if !Distinct(RevocationIds(revocations)) then LookupResult(ConflictingState, None) else
    var matches := Matches(registry.entries, a);
    if matches == [] then LookupResult(NoEntry, None)
    else if |matches| > 1 then LookupResult(ConflictingState, None)
    else if EntryRevoked(matches[0], revocations) then LookupResult(RevokedEntry, Some(matches[0]))
    else LookupResult(ActiveEntry, Some(matches[0]))
  }

  function Rank(state: LookupState): nat {
    match state case NoEntry => 0 case ActiveEntry => 1 case RevokedEntry => 2 case ConflictingState => 3
  }

  /** Nothing recorded in s is missing or altered in t. */
  ghost predicate Grows(s: DurableState, t: DurableState) {
    && (forall e :: e in s.registry.entries ==> e in t.registry.entries)
    && (forall r :: r in s.revocations ==> r in t.revocations)
  }

  lemma {:induction false} MatchesDistinct(entries: seq<Entry>, a: Applicability)
    requires Distinct(Keys(entries, ProofIdOf))
    ensures Distinct(Matches(entries, a))
  {
    if entries != [] {
      assert Keys(Init(entries), ProofIdOf) == Init(Keys(entries, ProofIdOf));
      MatchesDistinct(Init(entries), a);
      var rest := Matches(Init(entries), a);
      forall i | 0 <= i < |rest| ensures rest[i] != Last(entries) {
        assert rest[i] in Init(entries);
        var j :| 0 <= j < |Init(entries)| && Init(entries)[j] == rest[i];
        assert Keys(entries, ProofIdOf)[j] != Keys(entries, ProofIdOf)[|entries| - 1];
      }
    }
  }

  lemma HitPersists(before: seq<Revocation>, after: seq<Revocation>, target: Target, id: string)
    requires (forall r :: r in before ==> r in after) && SomeHit(before, target, id)
    ensures SomeHit(after, target, id)
  {
    var i :| 0 <= i < |before| && Hits(before[i], target, id);
    assert before[i] in after;
    var j :| 0 <= j < |after| && after[j] == before[i];
    assert Hits(after[j], target, id);
  }

  lemma RevokedPersists(before: seq<Revocation>, after: seq<Revocation>, e: Entry)
    requires (forall r :: r in before ==> r in after) && EntryRevoked(e, before)
    ensures EntryRevoked(e, after)
  {
    hide SomeHit;
    if SomeHit(before, CandidateTarget, e.request.lineage.candidateId) {
      HitPersists(before, after, CandidateTarget, e.request.lineage.candidateId);
    } else if SomeHit(before, VerificationTarget, e.request.verificationId) {
      HitPersists(before, after, VerificationTarget, e.request.verificationId);
    } else {
      HitPersists(before, after, ProofTarget, e.request.proofId);
    }
  }

  /** As durable state grows, the lookup of any scope only moves up. */
  lemma LookupOnlyRises(s: DurableState, t: DurableState, a: Applicability)
    requires s.Valid() && t.Valid() && Grows(s, t)
    ensures Rank(Lookup(s.registry, a, s.revocations).state) <= Rank(Lookup(t.registry, a, t.revocations).state)
  {
    hide Sorted, Entry.Valid, Revocation.Valid, Consistent, EntryRevoked;
    MatchesDistinct(s.registry.entries, a);
    var ms, mt := Matches(s.registry.entries, a), Matches(t.registry.entries, a);
    hide Matches;
    if ms != [] {
      assert ms[0] in mt;
      if |ms| > 1 {
        assert ms[1] in mt && ms[0] != ms[1];
      } else if |mt| == 1 {
        assert mt[0] == ms[0];
        if EntryRevoked(ms[0], s.revocations) {
          RevokedPersists(s.revocations, t.revocations, ms[0]);
        }
      }
    }
  }
}
