/** Assessment of a review package (broker/deriv_proof_review.py). */
module ProofReview {
  import opened Prelude
  import opened Texts
  import opened Evidence
  import opened EvidenceReview

  datatype AssessmentState = ReadyForProofReview | AssessmentRejected | AssessmentInsufficient

  datatype AssessmentReason =
    | DecisionNotApproved | DecisionStale | ApplicabilityMismatch | EvidenceIdentityMismatch | ClaimSetMismatch
    | ScopeIncomplete | PackageConsistent | PackageConflicting

  datatype Assessment = Assessment(
    schemaVersion: int, assessmentId: string, decisionId: string, artifactIds: seq<string>, hashes: seq<string>,
    claimIds: seq<string>, state: AssessmentState, reasonCodes: set<AssessmentReason>, reviewerId: string,
    reviewedAt: int, applicability: Applicability, rationale: Option<string>, semantics: Option<Semantics>)
  {
    predicate Valid() {
      && schemaVersion == 1 && NonBlank(assessmentId) && NonBlank(decisionId) && NonBlank(reviewerId) && OptionalText(rationale)
      && (semantics.Some? ==> semantics.value.Valid() && semantics.value.applicability == applicability)
      && EvidenceTuples(artifactIds, hashes, claimIds) && reasonCodes != {} && applicability.Valid()
      && (if state.ReadyForProofReview? then
            artifactIds != [] && claimIds != [] && reasonCodes == {PackageConsistent}
          else PackageConsistent !in reasonCodes)
    }
  }

  function AssessmentProblems(a: Assessment, d: ReviewDecision, registry: EvidenceRegistry, sha: Hasher): set<AssessmentReason>
    requires |d.artifactIds| == |d.hashes|
  {
    Flag(a.decisionId != d.decisionId, EvidenceIdentityMismatch)
    + Flag(a.artifactIds != d.artifactIds || a.hashes != d.hashes, EvidenceIdentityMismatch)
    + Flag(a.claimIds != d.claimIds, ClaimSetMismatch)
    + Flag(a.applicability != d.applicability, ApplicabilityMismatch)
    + Flag(a.semantics != d.semantics, EvidenceIdentityMismatch)
    + Flag(!ReviewValid(d, registry, sha), DecisionStale)
    + Flag(!d.state.ApprovedForProofReview?, DecisionNotApproved)
    + Flag(d.state.DecisionRejected?, PackageConflicting)
    + Flag(d.state.DecisionInsufficient?, ScopeIncomplete)
  }

  /** validate_deriv_proof_review_assessment */
  predicate AssessmentValid(a: Assessment, d: ReviewDecision, registry: EvidenceRegistry, sha: Hasher)
    requires |d.artifactIds| == |d.hashes|
  {
    var problems := AssessmentProblems(a, d, registry, sha);
    var observed := if problems == {} then {PackageConsistent} else problems;
    && problems * {DecisionStale, ApplicabilityMismatch, EvidenceIdentityMismatch, ClaimSetMismatch} == {}
    && observed == a.reasonCodes
    && match a.state
       case ReadyForProofReview => observed == {PackageConsistent}
       case AssessmentRejected => PackageConflicting in observed
       case AssessmentInsufficient => ScopeIncomplete in observed
  }

  /** The assessment repeats the decision's evidence set exactly. */
  predicate Repeats(a: Assessment, d: ReviewDecision) {
    && a.decisionId == d.decisionId && a.artifactIds == d.artifactIds && a.hashes == d.hashes
    && a.claimIds == d.claimIds && a.applicability == d.applicability && a.semantics == d.semantics
  }

  lemma ProblemsClear(a: Assessment, d: ReviewDecision, registry: EvidenceRegistry, sha: Hasher)
    requires |d.artifactIds| == |d.hashes|
    ensures PackageConsistent !in AssessmentProblems(a, d, registry, sha)
    ensures AssessmentProblems(a, d, registry, sha) == {} <==>
            Repeats(a, d) && ReviewValid(d, registry, sha) && d.state.ApprovedForProofReview?
  {
    hide ReviewValid;
    if AssessmentProblems(a, d, registry, sha) == {} {
      assert Flag(a.decisionId != d.decisionId, EvidenceIdentityMismatch) == {};
      assert Flag(a.semantics != d.semantics, EvidenceIdentityMismatch) == {};
      assert Flag(!ReviewValid(d, registry, sha), DecisionStale) == {};
    }
  }

  lemma ReadyIffClear(a: Assessment, d: ReviewDecision, registry: EvidenceRegistry, sha: Hasher)
    requires a.state.ReadyForProofReview? && a.reasonCodes == {PackageConsistent} && |d.artifactIds| == |d.hashes|
    ensures AssessmentValid(a, d, registry, sha) <==> AssessmentProblems(a, d, registry, sha) == {}
  {
    ProblemsClear(a, d, registry, sha);
    hide AssessmentProblems, ReviewValid, Repeats;
  }

  /** A ready assessment validates exactly when it repeats an approved decision over sound evidence. */
  lemma ReadyIffSound(a: Assessment, d: ReviewDecision, registry: EvidenceRegistry, sha: Hasher)
    requires a.Valid() && d.Valid() && registry.Valid() && a.state.ReadyForProofReview?
    ensures AssessmentValid(a, d, registry, sha) <==>
            && d.state.ApprovedForProofReview? && Repeats(a, d)
            && EvidenceSound(registry, d.artifactIds, d.hashes, d.claimIds, d.applicability, d.semantics, sha)
  {
    assert a.reasonCodes == {PackageConsistent} && |d.artifactIds| == |d.hashes|;
    hide EvidenceSound, ReviewValid, AssessmentValid, AssessmentProblems, Repeats, EvidenceRegistry.Valid, ReviewDecision.Valid, Assessment.Valid;
    ReadyIffClear(a, d, registry, sha);
    ProblemsClear(a, d, registry, sha);
    if d.state.ApprovedForProofReview? {
      if ReviewValid(d, registry, sha) {
        ApprovalIsSound(d, registry, sha);
      }
      if EvidenceSound(registry, d.artifactIds, d.hashes, d.claimIds, d.applicability, d.semantics, sha) {
        SoundIsApprovable(d, registry, sha);
      }
    }
  }
}

/** Candidates, independent verification, revocation and eligibility (broker/deriv_proof_registration.py). */
module Registration {
  import opened Prelude
  import opened Texts
  import opened Evidence
  import opened EvidenceReview
  import opened EvidenceSoundness
  import opened ProofReview

  /** The identity fields that candidate, verification, request and entry all repeat. */
  datatype Lineage = Lineage(
    candidateId: string, materialHash: string, lossModelId: string, lossModelVersion: int, evidenceSourceId: string,
    assessmentId: string, decisionId: string, artifactIds: seq<string>, hashes: seq<string>, claimIds: seq<string>,
    applicability: Applicability, validFrom: int, validUntil: int, semantics: Option<Semantics>)
  {
    predicate Valid() {
      && NonBlank(candidateId) && IsHash(materialHash) && NonBlank(lossModelId) && lossModelVersion > 0
      && NonBlank(evidenceSourceId) && NonBlank(assessmentId) && NonBlank(decisionId)
      && EvidenceTuples(artifactIds, hashes, claimIds) && artifactIds != [] && claimIds != []
      && applicability.Complete() && validFrom < validUntil
      && (semantics.Some? ==> semantics.value.Valid() && semantics.value.applicability == applicability)
    }

    /** Declared semantics carry the loss model's identity and hash to the material hash. */
    predicate Bound(sha: Hasher) {
      semantics.Some? ==>
        && semantics.value.semanticId == lossModelId && semantics.value.semanticVersion == lossModelVersion
        && sha(semantics.value) == materialHash
    }
  }

  /** The evidence a lineage lists. */
  function EvidenceOf(l: Lineage): Listing {
    Listing(l.artifactIds, l.hashes, l.claimIds, l.applicability, l.semantics)
  }

  datatype Candidate = Candidate(schemaVersion: int, lineage: Lineage)
  {
    predicate Valid(sha: Hasher) {
      schemaVersion == 1 && lineage.Valid() && lineage.Bound(sha)
    }
  }

  datatype VerificationState = Verified | VerificationRejected | VerificationInsufficient

  datatype Verification = Verification(schemaVersion: int, verificationId: string, lineage: Lineage, state: VerificationState,
                                       verifierId: string, verifiedAt: int, rationale: Option<string>)
  {
    predicate Valid(sha: Hasher) {
      && schemaVersion == 1 && NonBlank(verificationId) && NonBlank(verifierId) && OptionalText(rationale)
      && lineage.Valid() && lineage.Bound(sha)
    }
  }

  datatype Target = CandidateTarget | VerificationTarget | ProofTarget

  datatype RevocationReason = Revoked | Superseded | EvidenceInvalidated | ApplicabilityInvalidated

  datatype Revocation = Revocation(schemaVersion: int, revocationId: string, target: Target, targetId: string,
                                   reason: RevocationReason, revokedBy: string, revokedAt: int, supersededBy: Option<string>)
  {
    predicate Valid() {
      && schemaVersion == 1 && NonBlank(revocationId) && NonBlank(targetId) && NonBlank(revokedBy)
      && (if reason.Superseded? then RequiredText(supersededBy) else supersededBy.None?)
    }
  }

  function RevocationIds(revocations: seq<Revocation>): (ids: seq<string>)
    ensures |ids| == |revocations|
  {
    seq(|revocations|, i requires 0 <= i < |revocations| => revocations[i].revocationId)
  }

  predicate Hits(r: Revocation, target: Target, id: string) {
    r.target == target && r.targetId == id
  }

  predicate SomeHit(revocations: seq<Revocation>, target: Target, id: string) {
    exists i :: 0 <= i < |revocations| && Hits(revocations[i], target, id)
  }

  datatype RegistrationReason =
    | RegistrationChainComplete | SourceAssessmentInvalid | SourceAssessmentNotReady | AdvisoryDecisionNotApproved
    | CandidateIdentityMismatch | RegistrationEvidenceMismatch | RegistrationClaimMismatch | RegistrationScopeMismatch
    | VerificationMissing | VerificationNotVerified | VerificationMismatch | CandidateRevoked | VerificationRevoked
    | RevocationRecordConflict | SemanticsMissing | SemanticIdMismatch | SemanticVersionMismatch | EquationMismatch
    | OperandSchemaMismatch | UnitSchemaMismatch | OutputSemanticMismatch | DomainMismatch | RoundingMismatch

  /** ELIGIBLE_FOR_REGISTRATION carries exactly the completeness reason; INELIGIBLE never does. */
  datatype Eligibility = Eligibility(eligible: bool, reasons: set<RegistrationReason>)
  {
    predicate Valid() {
      if eligible then reasons == {RegistrationChainComplete} else reasons != {} && RegistrationChainComplete !in reasons
    }
  }

  const COMPLETE := Eligibility(true, {RegistrationChainComplete})

  function Schema(o: Operand): (string, string, OperandRole, int, bool) {
    (o.operandId, o.semanticId, o.role, o.position, o.required)
  }

  function Bounds(o: Operand): (Domain, Option<real>, Option<real>, bool) {
    (o.domain, o.lowerBound, o.upperBound, o.zeroAllowed)
  }

  function UnitOf(o: Operand): Unit {
    o.unit
  }

  predicate SameOperands<T(==)>(l: seq<Operand>, r: seq<Operand>, view: Operand -> T) {
    |l| == |r| && forall i :: 0 <= i < |l| ==> view(l[i]) == view(r[i])
  }

  function SemanticDifferences(l: Semantics, r: Semantics): set<RegistrationReason> {
    Flag(l.semanticId != r.semanticId, SemanticIdMismatch)
    + Flag(l.semanticVersion != r.semanticVersion, SemanticVersionMismatch)
    + Flag(l.equationIdentityHash != r.equationIdentityHash, EquationMismatch)
    + Flag(!SameOperands(l.operands, r.operands, Schema), OperandSchemaMismatch)
    + Flag(!SameOperands(l.operands, r.operands, UnitOf) || l.output.unit != r.output.unit, UnitSchemaMismatch)
    + Flag(l.output.(unit := r.output.unit) != r.output, OutputSemanticMismatch)
    + Flag(!SameOperands(l.operands, r.operands, Bounds) || l.domainConstraintIds != r.domainConstraintIds, DomainMismatch)
    + Flag(l.rounding != r.rounding, RoundingMismatch)
  }

  /** _semantic_mismatch_reasons: empty exactly when the two declarations are equal. */
  function SemanticMismatch(l: Option<Semantics>, r: Option<Semantics>): (reasons: set<RegistrationReason>)
    ensures reasons == {} <==> l == r
    ensures RegistrationChainComplete !in reasons
  {
    if l == r then {}
    else if l.None? || r.None? then {SemanticsMissing}
    else
      var differences := SemanticDifferences(l.value, r.value);
      if differences == {} then {CandidateIdentityMismatch} else differences
  }

  function VerificationProblems(c: Lineage, verification: Option<Verification>): (reasons: set<RegistrationReason>)
  {
    match verification
    case None => {VerificationMissing}
    case Some(v) =>
      var semantic := SemanticMismatch(c.semantics, v.lineage.semantics);
      Flag(!v.state.Verified?, VerificationNotVerified)
      + Flag(v.lineage.(applicability := c.applicability, semantics := c.semantics) != c, VerificationMismatch)
      + Flag(v.lineage.applicability != c.applicability, RegistrationScopeMismatch)
      + semantic + Flag(semantic != {}, VerificationMismatch)
  }

  function RevocationProblems(c: Lineage, verification: Option<Verification>, revocations: seq<Revocation>): set<RegistrationReason> {
    Flag(!Distinct(RevocationIds(revocations)), RevocationRecordConflict)
    + Flag(SomeHit(revocations, CandidateTarget, c.candidateId), CandidateRevoked)
    + Flag(verification.Some? && SomeHit(revocations, VerificationTarget, verification.value.verificationId), VerificationRevoked)
  }

  function ChainProblems(c: Lineage, a: Assessment, d: ReviewDecision, registry: EvidenceRegistry, sha: Hasher): set<RegistrationReason>
    requires |d.artifactIds| == |d.hashes|
  {
    Flag(!AssessmentValid(a, d, registry, sha), SourceAssessmentInvalid)
    + Flag(!a.state.ReadyForProofReview?, SourceAssessmentNotReady)
    + Flag(!d.state.ApprovedForProofReview?, AdvisoryDecisionNotApproved)
    + Flag(c.assessmentId != a.assessmentId || c.decisionId != d.decisionId, CandidateIdentityMismatch)
    + Flag(c.artifactIds != a.artifactIds || c.hashes != a.hashes, RegistrationEvidenceMismatch)
    + Flag(c.claimIds != a.claimIds, RegistrationClaimMismatch)
    + Flag(c.applicability != a.applicability, RegistrationScopeMismatch)
    + SemanticMismatch(c.semantics, a.semantics)
  }

  /** validate_deriv_proof_registration_eligibility */
  function EligibilityOf(candidate: Candidate, verification: Option<Verification>, a: Assessment, d: ReviewDecision,
                         registry: EvidenceRegistry, revocations: seq<Revocation>, sha: Hasher): Eligibility
    requires |d.artifactIds| == |d.hashes|
  {
    var reasons := ChainProblems(candidate.lineage, a, d, registry, sha)
                   + VerificationProblems(candidate.lineage, verification)
                   + RevocationProblems(candidate.lineage, verification, revocations);
    if reasons == {} then COMPLETE else Eligibility(false, reasons)
  }

  /** The lineage is carried by a ready assessment of an approved decision over sound evidence. */
  ghost predicate ChainSound(c: Lineage, a: Assessment, d: ReviewDecision, registry: EvidenceRegistry, sha: Hasher) {
    && a.state.ReadyForProofReview? && d.state.ApprovedForProofReview? && Repeats(a, d)
    && c.assessmentId == a.assessmentId && c.decisionId == d.decisionId && c.artifactIds == a.artifactIds
    && c.hashes == a.hashes && c.claimIds == a.claimIds && c.applicability == a.applicability && c.semantics == a.semantics
    && EvidenceSound(registry, c.artifactIds, c.hashes, c.claimIds, c.applicability, c.semantics, sha)
  }

  lemma ChainClearIffSound(c: Lineage, a: Assessment, d: ReviewDecision, registry: EvidenceRegistry, sha: Hasher)
    requires a.Valid() && d.Valid() && registry.Valid()
    ensures ChainProblems(c, a, d, registry, sha) == {} <==> ChainSound(c, a, d, registry, sha)
  {
    hide EvidenceSound, AssessmentValid, EvidenceRegistry.Valid, ReviewDecision.Valid, Assessment.Valid, SemanticMismatch;
    if a.state.ReadyForProofReview? {
      ReadyIffSound(a, d, registry, sha);
    }
    Aligned(d);
    if ChainProblems(c, a, d, registry, sha) == {} {
      assert Flag(!AssessmentValid(a, d, registry, sha), SourceAssessmentInvalid) == {};
      assert SemanticMismatch(c.semantics, a.semantics) == {};
    }
  }

  lemma VerificationClearIffSame(c: Lineage, verification: Option<Verification>)
    ensures VerificationProblems(c, verification) == {} <==>
            verification.Some? && verification.value.state.Verified? && verification.value.lineage == c
  {
    hide SemanticMismatch;
    if verification.Some? {
      var v := verification.value;
      var semantic := SemanticMismatch(c.semantics, v.lineage.semantics);
      if VerificationProblems(c, verification) == {} {
        assert Flag(semantic != {}, VerificationMismatch) == {};
        assert Flag(v.lineage.(applicability := c.applicability, semantics := c.semantics) != c, VerificationMismatch) == {};
        assert Flag(v.lineage.applicability != c.applicability, RegistrationScopeMismatch) == {};
      }
    }
  }

  ghost predicate Unrevoked(c: Lineage, verificationId: string, revocations: seq<Revocation>) {
    && Distinct(RevocationIds(revocations)) && !SomeHit(revocations, CandidateTarget, c.candidateId)
    && !SomeHit(revocations, VerificationTarget, verificationId)
  }

  /** Eligibility means: sound chain, a verification of the same lineage, and no revocation. */
  lemma EligibleIff(candidate: Candidate, v: Verification, a: Assessment, d: ReviewDecision,
                    registry: EvidenceRegistry, revocations: seq<Revocation>, sha: Hasher)
    requires a.Valid() && d.Valid() && registry.Valid()
    ensures EligibilityOf(candidate, Some(v), a, d, registry, revocations, sha) == COMPLETE <==>
            && ChainSound(candidate.lineage, a, d, registry, sha)
            && v.state.Verified? && v.lineage == candidate.lineage
            && Unrevoked(candidate.lineage, v.verificationId, revocations)
  {
    ChainClearIffSound(candidate.lineage, a, d, registry, sha);
    VerificationClearIffSame(candidate.lineage, Some(v));
    RevocationClearIff(candidate.lineage, v, revocations);
    Aligned(d);
    hide ChainProblems, ChainSound, VerificationProblems, RevocationProblems, Unrevoked, EvidenceRegistry.Valid, ReviewDecision.Valid, Assessment.Valid;
    var reasons := ChainProblems(candidate.lineage, a, d, registry, sha) + VerificationProblems(candidate.lineage, Some(v))
                   + RevocationProblems(candidate.lineage, Some(v), revocations);
    if reasons == {} {
      assert ChainProblems(candidate.lineage, a, d, registry, sha) <= reasons;
      assert VerificationProblems(candidate.lineage, Some(v)) <= reasons;
      assert RevocationProblems(candidate.lineage, Some(v), revocations) <= reasons;
    }
  }

  lemma RevocationClearIff(c: Lineage, v: Verification, revocations: seq<Revocation>)
    ensures RevocationProblems(c, Some(v), revocations) == {} <==> Unrevoked(c, v.verificationId, revocations)
  {
    hide SomeHit, Distinct;
    if RevocationProblems(c, Some(v), revocations) == {} {
      assert Flag(SomeHit(revocations, CandidateTarget, c.candidateId), CandidateRevoked) == {};
      assert Flag(SomeHit(revocations, VerificationTarget, v.verificationId), VerificationRevoked) == {};
      assert Flag(!Distinct(RevocationIds(revocations)), RevocationRecordConflict) == {};
    }
  }
}
