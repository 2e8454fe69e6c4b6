/** Registry admission and lookup (broker/deriv_proof_registry.py). */
module Registry {
  import opened Prelude
  import opened Texts
  import opened Sorting
  import opened Evidence
  import opened EvidenceReview
  import opened EvidenceSoundness
  import opened ProofReview
  import opened Registration

  datatype Request = Request(schemaVersion: int, admissionId: string, proofId: string, verificationId: string,
                             lineage: Lineage, admittedBy: string, admittedAt: int)
  {
    predicate Valid() {
      && schemaVersion == 1 && NonBlank(admissionId) && NonBlank(proofId) && NonBlank(verificationId)
      && NonBlank(admittedBy) && lineage.Valid()
    }

    /** authority_identity: everything except the bookkeeping of this particular admission. */
    function Authority(): Request {
      this.(schemaVersion := 1, admissionId := "", admittedBy := "", admittedAt := 0)
    }
  }

  datatype Entry = Entry(request: Request, eligibility: Eligibility)
  {
    predicate Valid() {
      request.Valid() && eligibility == COMPLETE
    }
  }

  function ProofIdOf(e: Entry): string { e.request.proofId }
  function AdmissionIdOf(e: Entry): string { e.request.admissionId }
  function CandidateIdOf(e: Entry): string { e.request.lineage.candidateId }

  datatype ProofRegistry = ProofRegistry(entries: seq<Entry>)
  {
    /** What the constructor accepts. */
    predicate Valid() {
      && (forall i :: 0 <= i < |entries| ==> entries[i].Valid())
      && Distinct(Keys(entries, ProofIdOf)) && Distinct(Keys(entries, AdmissionIdOf)) && Distinct(Keys(entries, CandidateIdOf))
      && entries == Sorted(entries, ProofIdOf)
    }

    function GetHistorical(proofId: string): (r: Option<Entry>)
      ensures r.Some? ==> r.value in entries && r.value.request.proofId == proofId
      ensures r.None? ==> forall e :: e in entries ==> e.request.proofId != proofId
    {
      Find(entries, proofId)
    }

    static function Find(entries: seq<Entry>, proofId: string): (r: Option<Entry>)
      ensures r.Some? ==> r.value in entries && r.value.request.proofId == proofId
      ensures r.None? ==> forall e :: e in entries ==> e.request.proofId != proofId
    {
      if entries == [] then None
      else if entries[0].request.proofId == proofId then Some(entries[0])
      else Find(entries[1..], proofId)
    }
  }

  datatype AdmissionState = Admitted | AlreadyAdmitted | AdmissionRejected

  datatype AdmissionReason =
    | AdmissionAccepted | ExactDuplicate | EligibilityInvalid | EligibilityStale | CandidateMismatch
    | MaterialHashMismatch | AdmissionVerificationMismatch | AdvisoryChainMismatch | AdmissionEvidenceMismatch
    | AdmissionClaimMismatch | AdmissionScopeMismatch | LossModelMismatch | AdmissionCandidateRevoked
    | AdmissionVerificationRevoked | VerificationSuperseded | ProofRevoked | ProofIdConflict
    | RegistryStateConflict | AdmissionRevocationConflict

  /** The arguments of one admission call. */
  datatype Attempt = Attempt(request: Request, eligibility: Eligibility, candidate: Candidate, verification: Verification,
                             assessment: Assessment, decision: ReviewDecision, evidence: EvidenceRegistry,
                             revocations: seq<Revocation>)
  {
    predicate Valid(sha: Hasher) {
      && request.Valid() && eligibility.Valid() && candidate.Valid(sha) && verification.Valid(sha)
      && assessment.Valid() && decision.Valid() && evidence.Valid()
    }
  }

  datatype Outcome = Outcome(state: AdmissionState, reasons: set<AdmissionReason>, entry: Option<Entry>, registry: ProofRegistry)

  predicate SomeReason(revocations: seq<Revocation>, verificationId: string, superseded: bool) {
    exists i :: 0 <= i < |revocations| && Hits(revocations[i], VerificationTarget, verificationId)
             && revocations[i].reason.Superseded? == superseded
  }

  function RevocationFlags(request: Request, verificationId: string, revocations: seq<Revocation>): set<AdmissionReason> {
    Flag(SomeHit(revocations, CandidateTarget, request.lineage.candidateId), AdmissionCandidateRevoked)
    + Flag(SomeReason(revocations, verificationId, true), VerificationSuperseded)
    + Flag(SomeReason(revocations, verificationId, false), AdmissionVerificationRevoked)
    + Flag(SomeHit(revocations, ProofTarget, request.proofId), ProofRevoked)
  }

  /** The loop of _validate_revocations. */
  method ScanRevocations(request: Request, verificationId: string, revocations: seq<Revocation>) returns (reasons: set<AdmissionReason>)
    ensures reasons == Flag(!Distinct(RevocationIds(revocations)), AdmissionRevocationConflict)
                       + RevocationFlags(request, verificationId, revocations)
  {
    reasons := Flag(!Distinct(RevocationIds(revocations)), AdmissionRevocationConflict);
    ghost var base := reasons;
    hide Distinct;
    for n := 0 to |revocations|
      invariant reasons == base + RevocationFlags(request, verificationId, revocations[..n])
    {
      RevocationFlagsStep(request, verificationId, revocations, n);
      hide RevocationFlags;
      var record := revocations[n];
      if Hits(record, CandidateTarget, request.lineage.candidateId) {
        reasons := reasons + {AdmissionCandidateRevoked};
      } else if Hits(record, VerificationTarget, verificationId) {
        reasons := reasons + {if record.reason.Superseded? then VerificationSuperseded else AdmissionVerificationRevoked};
      } else if Hits(record, ProofTarget, request.proofId) {
        reasons := reasons + {ProofRevoked};
      }
    }
    assert revocations[..|revocations|] == revocations;
  }

  lemma HitStep(revocations: seq<Revocation>, n: nat, target: Target, id: string)
    requires n < |revocations|
    ensures SomeHit(revocations[..n + 1], target, id) <==> SomeHit(revocations[..n], target, id) || Hits(revocations[n], target, id)
  {
    var more, part := revocations[..n + 1], revocations[..n];
    assert more[n] == revocations[n] && forall i :: 0 <= i < n ==> more[i] == part[i];
  }

  lemma ReasonStep(revocations: seq<Revocation>, n: nat, id: string, superseded: bool)
    requires n < |revocations|
    ensures SomeReason(revocations[..n + 1], id, superseded) <==>
            SomeReason(revocations[..n], id, superseded)
            || (Hits(revocations[n], VerificationTarget, id) && revocations[n].reason.Superseded? == superseded)
  {
    var more, part := revocations[..n + 1], revocations[..n];
    assert more[n] == revocations[n] && forall i :: 0 <= i < n ==> more[i] == part[i];
  }

  lemma RevocationFlagsStep(request: Request, id: string, revocations: seq<Revocation>, n: nat)
    requires n < |revocations|
    ensures RevocationFlags(request, id, revocations[..n + 1]) == RevocationFlags(request, id, revocations[..n]) +
            var r := revocations[n];
            Flag(Hits(r, CandidateTarget, request.lineage.candidateId), AdmissionCandidateRevoked)
            + Flag(Hits(r, VerificationTarget, id) && r.reason.Superseded?, VerificationSuperseded)
            + Flag(Hits(r, VerificationTarget, id) && !r.reason.Superseded?, AdmissionVerificationRevoked)
            + Flag(Hits(r, ProofTarget, request.proofId), ProofRevoked)
  {
    HitStep(revocations, n, CandidateTarget, request.lineage.candidateId);
    HitStep(revocations, n, ProofTarget, request.proofId);
    ReasonStep(revocations, n, id, true);
    ReasonStep(revocations, n, id, false);
    hide SomeHit, SomeReason, Hits;
  }

  function LineageFlags(x: Attempt): set<AdmissionReason> {
    var r, c := x.request.lineage, x.candidate.lineage;
    Flag(r.candidateId != c.candidateId, CandidateMismatch)
    + Flag(r.materialHash != c.materialHash, MaterialHashMismatch)
    + Flag(x.request.verificationId != x.verification.verificationId, AdmissionVerificationMismatch)
    + Flag(r.assessmentId != x.assessment.assessmentId || r.decisionId != x.decision.decisionId, AdvisoryChainMismatch)
    + Flag(r.artifactIds != c.artifactIds || r.hashes != c.hashes, AdmissionEvidenceMismatch)
    + Flag(r.claimIds != c.claimIds, AdmissionClaimMismatch)
    + Flag(r.applicability != c.applicability, AdmissionScopeMismatch)
    + Flag(r.lossModelId != c.lossModelId || r.lossModelVersion != c.lossModelVersion || r.evidenceSourceId != c.evidenceSourceId
           || r.validFrom != c.validFrom || r.validUntil != c.validUntil, LossModelMismatch)
    + Flag(r.semantics != c.semantics || c.semantics != x.verification.lineage.semantics
           || c.semantics != x.assessment.semantics || c.semantics != x.decision.semantics, LossModelMismatch)
  }

  function AdmissionProblems(x: Attempt, sha: Hasher): set<AdmissionReason>
    requires |x.decision.artifactIds| == |x.decision.hashes|
  {
    var recomputed := EligibilityOf(x.candidate, Some(x.verification), x.assessment, x.decision, x.evidence, x.revocations, sha);
    Flag(!x.eligibility.eligible, EligibilityInvalid)
    + Flag(recomputed != x.eligibility || !recomputed.eligible, EligibilityStale)
    + LineageFlags(x)
    + Flag(!Distinct(RevocationIds(x.revocations)), AdmissionRevocationConflict)
    + RevocationFlags(x.request, x.verification.verificationId, x.revocations)
  }

  predicate Clashes(registry: ProofRegistry, request: Request) {
    exists i :: 0 <= i < |registry.entries| &&
      (registry.entries[i].request.admissionId == request.admissionId
       || registry.entries[i].request.lineage.candidateId == request.lineage.candidateId)
  }

  /** admit_deriv_proof_registry_entry */
  function Admit(registry: ProofRegistry, x: Attempt, sha: Hasher): Outcome
    requires |x.decision.artifactIds| == |x.decision.hashes|
  {
    var reasons := AdmissionProblems(x, sha);
    var existing := registry.GetHistorical(x.request.proofId);
    if existing.Some? && existing.value.request.Authority() == x.request.Authority() then
      if reasons != {} then Outcome(AdmissionRejected, reasons, None, registry)
      else Outcome(AlreadyAdmitted, {ExactDuplicate}, existing, registry)
    else
      var all := reasons + Flag(existing.Some?, ProofIdConflict) + Flag(Clashes(registry, x.request), RegistryStateConflict);
      if all != {} then Outcome(AdmissionRejected, all, None, registry)
      else
        var entry := Entry(x.request, x.eligibility);
        Outcome(Admitted, {AdmissionAccepted}, Some(entry), ProofRegistry(Sorted(registry.entries + [entry], ProofIdOf)))
  }

  // ---------------------------------------------------------------- soundness of admission

  /** One lineage from evidence to request, verified, and free of revocation. */
  ghost predicate Sound(x: Attempt, sha: Hasher) {
    && x.eligibility == COMPLETE
    && x.request.lineage == x.candidate.lineage == x.verification.lineage
    && x.verification.state.Verified? && x.request.verificationId == x.verification.verificationId
    && ChainSound(x.request.lineage, x.assessment, x.decision, x.evidence, sha)
    && Unrevoked(x.request.lineage, x.request.verificationId, x.revocations)
    && !SomeHit(x.revocations, ProofTarget, x.request.proofId)
  }

  lemma LineageClearIff(x: Attempt)
    requires x.candidate.lineage.assessmentId == x.assessment.assessmentId && x.candidate.lineage.decisionId == x.decision.decisionId
    requires x.candidate.lineage == x.verification.lineage && x.candidate.lineage.semantics == x.assessment.semantics == x.decision.semantics
    ensures LineageFlags(x) == {} <==>
            x.request.lineage == x.candidate.lineage && x.request.verificationId == x.verification.verificationId
  {
    var r, c := x.request.lineage, x.candidate.lineage;
    if LineageFlags(x) == {} {
      assert Flag(r.semantics != c.semantics || c.semantics != x.verification.lineage.semantics
                  || c.semantics != x.assessment.semantics || c.semantics != x.decision.semantics, LossModelMismatch) == {};
      assert Flag(r.lossModelId != c.lossModelId || r.lossModelVersion != c.lossModelVersion || r.evidenceSourceId != c.evidenceSourceId
                  || r.validFrom != c.validFrom || r.validUntil != c.validUntil, LossModelMismatch) == {};
    }
  }

  lemma RevocationFlagsClearIff(request: Request, verificationId: string, revocations: seq<Revocation>)
    ensures RevocationFlags(request, verificationId, revocations) == {} <==>
            && !SomeHit(revocations, CandidateTarget, request.lineage.candidateId)
            && !SomeHit(revocations, VerificationTarget, verificationId)
            && !SomeHit(revocations, ProofTarget, request.proofId)
  {
    assert SomeHit(revocations, VerificationTarget, verificationId) <==>
           SomeReason(revocations, verificationId, true) || SomeReason(revocations, verificationId, false);
    hide SomeHit, SomeReason;
    if RevocationFlags(request, verificationId, revocations) == {} {
      assert Flag(SomeReason(revocations, verificationId, true), VerificationSuperseded) == {};
      assert Flag(SomeReason(revocations, verificationId, false), AdmissionVerificationRevoked) == {};
    }
  }

  /** No problem is found exactly when the attempt is sound. */
  lemma ProblemsClearIffSound(x: Attempt, sha: Hasher)
    requires x.Valid(sha)
    ensures |x.decision.artifactIds| == |x.decision.hashes|
    ensures AdmissionProblems(x, sha) == {} <==> Sound(x, sha)
  {
    Aligned(x.decision);
    EligibleIff(x.candidate, x.verification, x.assessment, x.decision, x.evidence, x.revocations, sha);
    RevocationFlagsClearIff(x.request, x.verification.verificationId, x.revocations);
    hide Candidate.Valid, Verification.Valid, Assessment.Valid, ReviewDecision.Valid, EvidenceRegistry.Valid, Request.Valid;
    hide EligibilityOf, RevocationFlags, SomeHit, Distinct, EvidenceSound;
    var recomputed := EligibilityOf(x.candidate, Some(x.verification), x.assessment, x.decision, x.evidence, x.revocations, sha);
    if recomputed == COMPLETE {
      LineageClearIff(x);
    }
    hide LineageFlags;
    if AdmissionProblems(x, sha) == {} {
      assert Flag(recomputed != x.eligibility || !recomputed.eligible, EligibilityStale) == {};
      assert x.eligibility.Valid() && recomputed == x.eligibility == COMPLETE;
      assert LineageFlags(x) <= AdmissionProblems(x, sha);
      assert RevocationFlags(x.request, x.verification.verificationId, x.revocations) <= AdmissionProblems(x, sha);
    }
  }

  ghost predicate Fresh(registry: ProofRegistry, request: Request) {
    forall e :: e in registry.entries ==>
      && e.request.proofId != request.proofId && e.request.admissionId != request.admissionId
      && e.request.lineage.candidateId != request.lineage.candidateId
  }

  lemma FreshIff(registry: ProofRegistry, request: Request)
    ensures Fresh(registry, request) <==> registry.GetHistorical(request.proofId).None? && !Clashes(registry, request)
  {
    hide ProofRegistry.Find;
    var existing := registry.GetHistorical(request.proofId);
    if existing.None? && !Clashes(registry, request) {
      forall e | e in registry.entries
        ensures e.request.proofId != request.proofId && e.request.admissionId != request.admissionId
        ensures e.request.lineage.candidateId != request.lineage.candidateId
      {
        var i :| 0 <= i < |registry.entries| && registry.entries[i] == e;
      }
    }
  }

  /** Admission is sound and complete: it happens exactly for a sound attempt under fresh identities. */
  lemma AdmittedIff(registry: ProofRegistry, x: Attempt, sha: Hasher)
    requires registry.Valid() && x.Valid(sha)
    ensures |x.decision.artifactIds| == |x.decision.hashes|
    ensures Admit(registry, x, sha).state.Admitted? <==> Sound(x, sha) && Fresh(registry, x.request)
  {
    hide AdmissionProblems, Sound, Fresh, ProofRegistry.GetHistorical, Clashes, Sorted, ProofRegistry.Valid, Attempt.Valid, Request.Authority;
    ProblemsClearIffSound(x, sha);
    FreshIff(registry, x.request);
    var reasons, existing := AdmissionProblems(x, sha), registry.GetHistorical(x.request.proofId);
    var all := reasons + Flag(existing.Some?, ProofIdConflict) + Flag(Clashes(registry, x.request), RegistryStateConflict);
    assert all == {} <==> reasons == {} && existing.None? && !Clashes(registry, x.request) by {
      if all == {} {
        assert Flag(existing.Some?, ProofIdConflict) <= all && Flag(Clashes(registry, x.request), RegistryStateConflict) <= all;
        assert reasons <= all;
      }
    }
  }

  /** The checks of an admission before the registry is consulted, reasons accumulated one at a time. */
  method CollectProblems(x: Attempt, sha: Hasher) returns (reasons: set<AdmissionReason>)
    requires |x.decision.artifactIds| == |x.decision.hashes|
    ensures reasons == AdmissionProblems(x, sha)
  {
    hide EligibilityOf, RevocationFlags, LineageFlags, Distinct;
    reasons := {};
    var recomputed := EligibilityOf(x.candidate, Some(x.verification), x.assessment, x.decision, x.evidence, x.revocations, sha);
    if !x.eligibility.eligible {
      reasons := reasons + {EligibilityInvalid};
    }
    if recomputed != x.eligibility || !recomputed.eligible {
      reasons := reasons + {EligibilityStale};
    }
    reasons := reasons + LineageFlags(x);
    var revoked := ScanRevocations(x.request, x.verification.verificationId, x.revocations);
    reasons := reasons + revoked;
  }

  /**
    The admission as it is carried out: it admits exactly sound attempts under fresh identities, and
    anything else leaves the registry as it was.
  */
  method AdmitEntry(registry: ProofRegistry, x: Attempt, sha: Hasher) returns (outcome: Outcome)
    requires registry.Valid() && x.Valid(sha)
    ensures |x.decision.artifactIds| == |x.decision.hashes| && outcome == Admit(registry, x, sha)
    ensures outcome.state.Admitted? <==> Sound(x, sha) && Fresh(registry, x.request)
    ensures !outcome.state.Admitted? ==> outcome.registry == registry
  {
    hide *;
    AdmittedIff(registry, x, sha);
    var problems := CollectProblems(x, sha);
    outcome := Decide(registry, x, problems, sha);
  }

  /** The registry's part of the decision. */
  method Decide(registry: ProofRegistry, x: Attempt, problems: set<AdmissionReason>, sha: Hasher) returns (outcome: Outcome)
    requires |x.decision.artifactIds| == |x.decision.hashes| && problems == AdmissionProblems(x, sha)
    ensures outcome == Admit(registry, x, sha)
    ensures !outcome.state.Admitted? ==> outcome.registry == registry
  {
    hide AdmissionProblems, ProofRegistry.GetHistorical, Clashes, Request.Authority, Sorted;
    var reasons := problems;
    var existing := registry.GetHistorical(x.request.proofId);
    if existing.Some? {
      if existing.value.request.Authority() == x.request.Authority() {
        if reasons != {} {
          return Outcome(AdmissionRejected, reasons, None, registry);
        }
        return Outcome(AlreadyAdmitted, {ExactDuplicate}, existing, registry);
      }
      reasons := reasons + {ProofIdConflict};
    }
    if Clashes(registry, x.request) {
      reasons := reasons + {RegistryStateConflict};
    }
    assert reasons == problems + Flag(existing.Some?, ProofIdConflict) + Flag(Clashes(registry, x.request), RegistryStateConflict);
    if reasons != {} {
      return Outcome(AdmissionRejected, reasons, None, registry);
    }
    var entry := Entry(x.request, x.eligibility);
    return Outcome(Admitted, {AdmissionAccepted}, Some(entry), ProofRegistry(Sorted(registry.entries + [entry], ProofIdOf)));
  }

  /**
    What stands behind an admitted entry, spelled out: the selected evidence is sound, and all of the
    cited evidence is where no claim identity is shadowed.
  */
  lemma AdmittedEvidence(registry: ProofRegistry, x: Attempt, sha: Hasher)
    requires registry.Valid() && x.Valid(sha) && |x.decision.artifactIds| == |x.decision.hashes|
    requires Admit(registry, x, sha).state.Admitted?
    ensures var l := x.request.lineage;
            && Admit(registry, x, sha).entry == Some(Entry(x.request, COMPLETE))
            && SoundBy(x.evidence, EvidenceOf(l), sha)
            && (Unshadowed(x.evidence, EvidenceOf(l)) ==> FullySound(x.evidence, EvidenceOf(l), sha))
            && x.verification.state.Verified? && x.verification.lineage == l && l.Bound(sha)
            && !SomeHit(x.revocations, CandidateTarget, l.candidateId)
            && !SomeHit(x.revocations, VerificationTarget, x.request.verificationId)
            && !SomeHit(x.revocations, ProofTarget, x.request.proofId)
  {
    hide EvidenceSound, AdmissionProblems, ProofRegistry.Valid, ProofRegistry.GetHistorical, Sorted, Clashes, SomeHit, Distinct, Request.Authority;
    hide Assessment.Valid, ReviewDecision.Valid, EvidenceRegistry.Valid, Request.Valid, Lineage.Valid, Fresh, Unshadowed, FullySound;
    AdmittedIff(registry, x, sha);
    if Unshadowed(x.evidence, EvidenceOf(x.request.lineage)) {
      SoundIffFullySound(x.evidence, EvidenceOf(x.request.lineage), sha);
    }
  }
}
