/** Why each stage refuses: for every reason code, exactly the condition under which it is reported. */
module Causes {
  import opened Prelude
  import opened Texts
  import opened Sorting
  import opened Evidence
  import opened EvidenceReview
  import opened EvidenceSoundness
  import opened ProofReview
  import opened Registration
  import opened Registry
  import opened RegistryRuns
  import opened DurableProofs
  import opened Consumption

  // ---------------------------------------------------------------- evidence review

  /** The claim the review selects for the identity: that of the last listed artifact that carries it. */
  function Chosen(registry: EvidenceRegistry, d: ReviewDecision, id: string): Option<Claim> {
    Winner(Resolve(registry, d.artifactIds), id)
  }

  ghost predicate Chooses(registry: EvidenceRegistry, d: ReviewDecision, c: Claim) {
    exists id :: id in d.claimIds && Chosen(registry, d, id) == Some(c)
  }

  ghost predicate ReviewCause(reason: ReviewReason, d: ReviewDecision, registry: EvidenceRegistry, sha: Hasher)
    requires |d.artifactIds| == |d.hashes|
  {
    match reason
    case MissingRequiredClaim =>
      || d.artifactIds == [] || d.claimIds == []
      || (exists id :: id in d.claimIds && Chosen(registry, d, id) == None)
      || (d.semantics.Some? && forall c :: Chooses(registry, d, c) ==> !Declares(c, d.semantics.value, sha))
    case ArtifactRejected => exists a :: a in Resolve(registry, d.artifactIds) && a.reviewState == Rejected
    case ArtifactUnreviewed => exists a :: a in Resolve(registry, d.artifactIds) && a.reviewState == Unreviewed
    case ClaimRejected => exists c :: Chooses(registry, d, c) && c.reviewState == Rejected
    case ClaimUnreviewed => exists c :: Chooses(registry, d, c) && c.reviewState == Unreviewed
    case ForeignApplicability => exists c :: Chooses(registry, d, c) && c.applicability != d.applicability
    case ContentIdentityMismatch =>
      exists i :: 0 <= i < |d.artifactIds| && (registry.GetById(d.artifactIds[i]).None?
                                               || registry.GetById(d.artifactIds[i]).value.contentHash != d.hashes[i])
    case ConflictingClaim => exists b, c :: Chooses(registry, d, b) && Chooses(registry, d, c) && Contradict(b, c)
    case EvidenceSetComplete => false
  }

  lemma {:induction false} SelectedIff(index: map<string, Claim>, ids: seq<string>, c: Claim)
    ensures c in Select(index, ids) <==> exists id :: id in ids && id in index && index[id] == c
  {
    if ids != [] {
      SelectedIff(index, Init(ids), c);
      assert ids == Init(ids) + [Last(ids)];
      if c in Select(index, Init(ids)) {
        var id :| id in Init(ids) && id in index && index[id] == c;
        assert id in ids;
      } else if Last(ids) in index && index[Last(ids)] == c {
        assert Last(ids) in ids;
      }
    }
  }

  lemma ChoosesIff(registry: EvidenceRegistry, d: ReviewDecision, c: Claim)
    ensures Chooses(registry, d, c) <==> c in Select(ClaimIndex(Resolve(registry, d.artifactIds)), d.claimIds)
  {
    hide Resolve, ClaimIndex, Winner, Select;
    var artifacts := Resolve(registry, d.artifactIds);
    SelectedIff(ClaimIndex(artifacts), d.claimIds, c);
    if Chooses(registry, d, c) {
      var id :| id in d.claimIds && Chosen(registry, d, id) == Some(c);
      IndexAt(artifacts, id);
    }
    if id :| id in d.claimIds && id in ClaimIndex(artifacts) && ClaimIndex(artifacts)[id] == c {
      IndexAt(artifacts, id);
      assert Chosen(registry, d, id) == Some(c);
    }
  }

  lemma MissingIff(registry: EvidenceRegistry, d: ReviewDecision)
    ensures (exists i :: 0 <= i < |d.claimIds| && d.claimIds[i] !in ClaimIndex(Resolve(registry, d.artifactIds)))
            <==> exists id :: id in d.claimIds && Chosen(registry, d, id) == None
  {
    hide Resolve, ClaimIndex, Winner;
    var artifacts := Resolve(registry, d.artifactIds);
    if i :| 0 <= i < |d.claimIds| && d.claimIds[i] !in ClaimIndex(artifacts) {
      IndexAt(artifacts, d.claimIds[i]);
      assert d.claimIds[i] in d.claimIds && Chosen(registry, d, d.claimIds[i]) == None;
    }
    if id :| id in d.claimIds && Chosen(registry, d, id) == None {
      IndexAt(artifacts, id);
      var i :| 0 <= i < |d.claimIds| && d.claimIds[i] == id;
    }
  }

  lemma StateFacts(claims: seq<Claim>, state: ReviewState)
    ensures SomeClaim(claims, state) <==> exists c :: c in claims && c.reviewState == state
  {
    if SomeClaim(claims, state) {
      var i :| 0 <= i < |claims| && claims[i].reviewState == state;
      assert claims[i] in claims;
    }
  }

  lemma ForeignFacts(claims: seq<Claim>, applicability: Applicability)
    ensures SomeForeign(claims, applicability) <==> exists c :: c in claims && c.applicability != applicability
  {
    if SomeForeign(claims, applicability) {
      var i :| 0 <= i < |claims| && claims[i].applicability != applicability;
      assert claims[i] in claims;
    }
  }

  lemma ConflictFacts(claims: seq<Claim>)
    ensures Conflicting(claims) <==> exists b, c :: b in claims && c in claims && Contradict(b, c)
  {
    hide Contradict;
    if Conflicting(claims) {
      var i, j :| 0 <= i < j < |claims| && Contradict(claims[i], claims[j]);
      assert claims[i] in claims && claims[j] in claims;
    }
    if b, c :| b in claims && c in claims && Contradict(b, c) {
      var i :| 0 <= i < |claims| && claims[i] == b;
      var j :| 0 <= j < |claims| && claims[j] == c;
      ContradictIsSymmetric(b, c);
      assert i < j || j < i;
    }
  }

  lemma DeclarationFacts(claims: seq<Claim>, semantics: Option<Semantics>, sha: Hasher)
    ensures SemanticsBound(semantics, claims, sha) <==> semantics.None? || exists c :: c in claims && Declares(c, semantics.value, sha)
  {
    if semantics.Some? && SemanticsBound(semantics, claims, sha) {
      var i :| 0 <= i < |claims| && claims[i].claimType.LossModelDescriptionIdentity? && claims[i].value == sha(semantics.value);
      assert claims[i] in claims && Declares(claims[i], semantics.value, sha);
    }
  }

  lemma ArtifactFacts(artifacts: seq<Artifact>, state: ReviewState)
    ensures SomeArtifact(artifacts, state) <==> exists a :: a in artifacts && a.reviewState == state
  {
    if SomeArtifact(artifacts, state) {
      var i :| 0 <= i < |artifacts| && artifacts[i].reviewState == state;
      assert artifacts[i] in artifacts;
    }
  }

  lemma ArtifactPart(d: ReviewDecision, registry: EvidenceRegistry, reason: ReviewReason)
    requires |d.artifactIds| == |d.hashes|
    ensures reason in ArtifactReasons(d, registry, |d.artifactIds|) <==>
            var artifacts := Resolve(registry, d.artifactIds);
            match reason
            case MissingRequiredClaim => d.artifactIds == []
            case ContentIdentityMismatch =>
              exists i :: 0 <= i < |d.artifactIds| && (registry.GetById(d.artifactIds[i]).None?
                                                       || registry.GetById(d.artifactIds[i]).value.contentHash != d.hashes[i])
            case ArtifactRejected => exists a :: a in artifacts && a.reviewState == Rejected
            case ArtifactUnreviewed => exists a :: a in artifacts && a.reviewState == Unreviewed
            case _ => false
  {
    hide Resolve, SomeArtifact, EvidenceRegistry.GetById;
    assert d.artifactIds[..|d.artifactIds|] == d.artifactIds;
    ArtifactFacts(Resolve(registry, d.artifactIds), Rejected);
    ArtifactFacts(Resolve(registry, d.artifactIds), Unreviewed);
  }

  lemma ClaimPart(d: ReviewDecision, registry: EvidenceRegistry, sha: Hasher, reason: ReviewReason)
    ensures reason in ClaimReasons(d, ClaimIndex(Resolve(registry, d.artifactIds)), |d.claimIds|) <==>
            match reason
            case MissingRequiredClaim => d.claimIds == [] || exists id :: id in d.claimIds && Chosen(registry, d, id) == None
            case ClaimRejected => exists c :: Chooses(registry, d, c) && c.reviewState == Rejected
            case ClaimUnreviewed => exists c :: Chooses(registry, d, c) && c.reviewState == Unreviewed
            case ForeignApplicability => exists c :: Chooses(registry, d, c) && c.applicability != d.applicability
            case _ => false
  {
    hide Chosen, Chooses, Resolve, ClaimIndex, Select, SomeClaim, SomeForeign;
    assert d.claimIds[..|d.claimIds|] == d.claimIds;
    var claims := Select(ClaimIndex(Resolve(registry, d.artifactIds)), d.claimIds);
    forall c ensures Chooses(registry, d, c) <==> c in claims {
      ChoosesIff(registry, d, c);
    }
    MissingIff(registry, d);
    StateFacts(claims, Rejected);
    StateFacts(claims, Unreviewed);
    ForeignFacts(claims, d.applicability);
  }

  /** Each problem of a review is found exactly for its cause. */
  lemma ReviewProblemsAre(d: ReviewDecision, registry: EvidenceRegistry, sha: Hasher, reason: ReviewReason)
    requires |d.artifactIds| == |d.hashes|
    ensures reason in Problems(d, registry, sha) <==> ReviewCause(reason, d, registry, sha)
  {
    hide Chosen, Chooses, Resolve, ClaimIndex, Select, Conflicting, SemanticsBound, Contradict, Declares, EvidenceRegistry.GetById, ArtifactReasons, ClaimReasons;
    var claims := Select(ClaimIndex(Resolve(registry, d.artifactIds)), d.claimIds);
    forall c ensures Chooses(registry, d, c) <==> c in claims {
      ChoosesIff(registry, d, c);
    }
    ConflictFacts(claims);
    DeclarationFacts(claims, d.semantics, sha);
    ArtifactPart(d, registry, reason);
    ClaimPart(d, registry, sha, reason);
  }

  ghost predicate NoReviewCause(d: ReviewDecision, registry: EvidenceRegistry, sha: Hasher)
    requires |d.artifactIds| == |d.hashes|
  {
    forall reason :: !ReviewCause(reason, d, registry, sha)
  }

  /** Each reason of a review is observed exactly for its cause, and completeness exactly when there is none. */
  lemma ReviewReasonsAre(d: ReviewDecision, registry: EvidenceRegistry, sha: Hasher)
    requires |d.artifactIds| == |d.hashes|
    ensures forall reason :: reason != EvidenceSetComplete ==>
              (reason in Observed(d, registry, sha) <==> ReviewCause(reason, d, registry, sha))
    ensures EvidenceSetComplete in Observed(d, registry, sha) <==> NoReviewCause(d, registry, sha)
  {
    forall reason ensures reason in Problems(d, registry, sha) <==> ReviewCause(reason, d, registry, sha) {
      ReviewProblemsAre(d, registry, sha, reason);
    }
    NeverComplete(d, registry, sha);
    hide ReviewCause, Problems;
    if NoReviewCause(d, registry, sha) {
      assert Problems(d, registry, sha) == {};
    }
  }

  const REJECTING: set<ReviewReason> := {ArtifactRejected, ClaimRejected, ForeignApplicability, ConflictingClaim}
  const WITHHOLDING: set<ReviewReason> := {ArtifactUnreviewed, ClaimUnreviewed, MissingRequiredClaim}

  /** The stated reasons are exactly the causes. */
  ghost predicate StatesCauses(d: ReviewDecision, registry: EvidenceRegistry, sha: Hasher)
    requires |d.artifactIds| == |d.hashes|
  {
    forall reason :: reason in d.reasonCodes <==> ReviewCause(reason, d, registry, sha)
  }

  ghost predicate SomeCause(kinds: set<ReviewReason>, d: ReviewDecision, registry: EvidenceRegistry, sha: Hasher)
    requires |d.artifactIds| == |d.hashes|
  {
    exists reason :: reason in kinds && ReviewCause(reason, d, registry, sha)
  }

  lemma StatesCausesIff(d: ReviewDecision, registry: EvidenceRegistry, sha: Hasher)
    requires |d.artifactIds| == |d.hashes| && d.reasonCodes != {} && EvidenceSetComplete !in d.reasonCodes
    ensures Observed(d, registry, sha) == d.reasonCodes <==> StatesCauses(d, registry, sha)
  {
    ReviewReasonsAre(d, registry, sha);
    NoCompleteCause(d, registry, sha);
    hide ReviewCause, Observed;
    if StatesCauses(d, registry, sha) {
      var some :| some in d.reasonCodes;
      assert ReviewCause(some, d, registry, sha);
      assert EvidenceSetComplete !in Observed(d, registry, sha);
      assert Observed(d, registry, sha) == d.reasonCodes;
    }
  }

  lemma SomeCauseIff(kinds: set<ReviewReason>, d: ReviewDecision, registry: EvidenceRegistry, sha: Hasher)
    requires |d.artifactIds| == |d.hashes| && EvidenceSetComplete !in kinds
    ensures Observed(d, registry, sha) * kinds != {} <==> SomeCause(kinds, d, registry, sha)
  {
    ReviewReasonsAre(d, registry, sha);
    hide ReviewCause, Observed;
    if Observed(d, registry, sha) * kinds != {} {
      var reason :| reason in Observed(d, registry, sha) * kinds;
      assert ReviewCause(reason, d, registry, sha);
    }
    if reason :| reason in kinds && ReviewCause(reason, d, registry, sha) {
      assert reason in Observed(d, registry, sha) * kinds;
    }
  }

  lemma NoCauseIff(d: ReviewDecision, registry: EvidenceRegistry, sha: Hasher)
    requires |d.artifactIds| == |d.hashes|
    ensures Observed(d, registry, sha) == {EvidenceSetComplete} <==> NoReviewCause(d, registry, sha)
  {
    ReviewReasonsAre(d, registry, sha);
    hide ReviewCause, Observed;
    if NoReviewCause(d, registry, sha) {
      assert forall reason :: reason in Observed(d, registry, sha) ==> reason == EvidenceSetComplete;
    }
  }

  /**
    When a decision of each kind is valid: no listed artifact is missing or changed, its stated reasons are
    exactly the causes, and a rejection or an insufficiency has a cause of its own kind.
  */
  lemma ReviewValidIff(d: ReviewDecision, registry: EvidenceRegistry, sha: Hasher)
    requires d.Valid()
    ensures |d.artifactIds| == |d.hashes|
    ensures ReviewValid(d, registry, sha) <==>
            match d.state
            case ApprovedForProofReview => NoReviewCause(d, registry, sha)
            case DecisionRejected =>
              && !ReviewCause(ContentIdentityMismatch, d, registry, sha) && StatesCauses(d, registry, sha)
              && SomeCause(REJECTING, d, registry, sha)
            case DecisionInsufficient =>
              && !ReviewCause(ContentIdentityMismatch, d, registry, sha) && StatesCauses(d, registry, sha)
              && SomeCause(WITHHOLDING, d, registry, sha)
  {
    hide ReviewCause, Observed, ReviewDecision.Valid, StatesCauses, SomeCause, NoReviewCause;
    Aligned(d);
    DecisionReasons(d);
    ReviewReasonsAre(d, registry, sha);
    if d.state.ApprovedForProofReview? {
      NoCauseIff(d, registry, sha);
    } else {
      StatesCausesIff(d, registry, sha);
      SomeCauseIff(REJECTING, d, registry, sha);
      SomeCauseIff(WITHHOLDING, d, registry, sha);
    }
  }

  lemma NoCompleteCause(d: ReviewDecision, registry: EvidenceRegistry, sha: Hasher)
    requires |d.artifactIds| == |d.hashes|
    ensures !ReviewCause(EvidenceSetComplete, d, registry, sha)
  {
  }

  lemma DecisionReasons(d: ReviewDecision)
    requires d.Valid()
    ensures d.reasonCodes != {}
    ensures if d.state.ApprovedForProofReview? then d.reasonCodes == {EvidenceSetComplete} else EvidenceSetComplete !in d.reasonCodes
  {
    hide EvidenceTuples, Semantics.Valid, Applicability.Valid;
  }

  // ---------------------------------------------------------------- assessment

  predicate AssessmentCause(reason: AssessmentReason, a: Assessment, d: ReviewDecision, registry: EvidenceRegistry, sha: Hasher)
    requires |d.artifactIds| == |d.hashes|
  {
    match reason
    case EvidenceIdentityMismatch =>
      a.decisionId != d.decisionId || a.artifactIds != d.artifactIds || a.hashes != d.hashes || a.semantics != d.semantics
    case ClaimSetMismatch => a.claimIds != d.claimIds
    case ApplicabilityMismatch => a.applicability != d.applicability
    case DecisionStale => !ReviewValid(d, registry, sha)
    case DecisionNotApproved => d.state != ApprovedForProofReview
    case PackageConflicting => d.state == DecisionRejected
    case ScopeIncomplete => d.state == DecisionInsufficient
    case PackageConsistent => false
  }

  lemma AssessmentProblemsAre(a: Assessment, d: ReviewDecision, registry: EvidenceRegistry, sha: Hasher, reason: AssessmentReason)
    requires |d.artifactIds| == |d.hashes|
    ensures reason in AssessmentProblems(a, d, registry, sha) <==> AssessmentCause(reason, a, d, registry, sha)
  {
    hide ReviewValid, Flag;
    InFlag(reason, a.decisionId != d.decisionId, EvidenceIdentityMismatch);
    InFlag(reason, a.artifactIds != d.artifactIds || a.hashes != d.hashes, EvidenceIdentityMismatch);
    InFlag(reason, a.claimIds != d.claimIds, ClaimSetMismatch);
    InFlag(reason, a.applicability != d.applicability, ApplicabilityMismatch);
    InFlag(reason, a.semantics != d.semantics, EvidenceIdentityMismatch);
    InFlag(reason, !ReviewValid(d, registry, sha), DecisionStale);
    InFlag(reason, !d.state.ApprovedForProofReview?, DecisionNotApproved);
    InFlag(reason, d.state.DecisionRejected?, PackageConflicting);
    InFlag(reason, d.state.DecisionInsufficient?, ScopeIncomplete);
  }

  /** When an assessment of each kind is valid, in terms of the decision it assesses. */
  lemma AssessmentValidIff(a: Assessment, d: ReviewDecision, registry: EvidenceRegistry, sha: Hasher)
    requires a.Valid() && |d.artifactIds| == |d.hashes|
    ensures AssessmentValid(a, d, registry, sha) <==>
            && Repeats(a, d) && ReviewValid(d, registry, sha)
            && match a.state
               case ReadyForProofReview => d.state == ApprovedForProofReview
               case AssessmentRejected => d.state == DecisionRejected && a.reasonCodes == {DecisionNotApproved, PackageConflicting}
               case AssessmentInsufficient => d.state == DecisionInsufficient && a.reasonCodes == {DecisionNotApproved, ScopeIncomplete}
  {
    hide ReviewValid, Assessment.Valid, AssessmentProblems, Repeats;
    AssessmentReasonCodes(a);
    ProblemsByState(a, d, registry, sha);
  }

  lemma AssessmentReasonCodes(a: Assessment)
    requires a.Valid()
    ensures if a.state.ReadyForProofReview? then a.reasonCodes == {PackageConsistent} else PackageConsistent !in a.reasonCodes && a.reasonCodes != {}
  {
    hide EvidenceTuples, Semantics.Valid, Applicability.Valid;
  }

  lemma ProblemsByState(a: Assessment, d: ReviewDecision, registry: EvidenceRegistry, sha: Hasher)
    requires |d.artifactIds| == |d.hashes|
    ensures AssessmentProblems(a, d, registry, sha) * {DecisionStale, ApplicabilityMismatch, EvidenceIdentityMismatch, ClaimSetMismatch} == {}
            <==> Repeats(a, d) && ReviewValid(d, registry, sha)
    ensures Repeats(a, d) && ReviewValid(d, registry, sha) ==>
            AssessmentProblems(a, d, registry, sha) ==
            match d.state
            case ApprovedForProofReview => {}
            case DecisionRejected => {DecisionNotApproved, PackageConflicting}
            case DecisionInsufficient => {DecisionNotApproved, ScopeIncomplete}
  {
    hide ReviewValid, AssessmentProblems;
    var problems := AssessmentProblems(a, d, registry, sha);
    forall reason ensures reason in problems <==> AssessmentCause(reason, a, d, registry, sha) {
      AssessmentProblemsAre(a, d, registry, sha, reason);
    }
    var blocking: set<AssessmentReason> := {DecisionStale, ApplicabilityMismatch, EvidenceIdentityMismatch, ClaimSetMismatch};
    if problems * blocking == {} {
      assert forall reason :: reason in blocking ==> reason !in problems * blocking;
    }
  }

  // ---------------------------------------------------------------- registration

  /** How two declarations differ. */
  predicate Differs(reason: RegistrationReason, l: Semantics, r: Semantics) {
    match reason
    case SemanticIdMismatch => l.semanticId != r.semanticId
    case SemanticVersionMismatch => l.semanticVersion != r.semanticVersion
    case EquationMismatch => l.equationIdentityHash != r.equationIdentityHash
    case OperandSchemaMismatch =>
      |l.operands| != |r.operands| || exists i :: 0 <= i < |l.operands| && i < |r.operands| && OtherSchema(l.operands[i], r.operands[i])
    case UnitSchemaMismatch =>
      || l.output.unit != r.output.unit || |l.operands| != |r.operands|
      || exists i :: 0 <= i < |l.operands| && i < |r.operands| && l.operands[i].unit != r.operands[i].unit
    case OutputSemanticMismatch =>
      || l.output.semantic != r.output.semantic || l.output.binding != r.output.binding
      || l.output.explicitCurrency != r.output.explicitCurrency || l.output.signed != r.output.signed
      || l.output.zeroAllowed != r.output.zeroAllowed
    case DomainMismatch =>
      || l.domainConstraintIds != r.domainConstraintIds || |l.operands| != |r.operands|
      || exists i :: 0 <= i < |l.operands| && i < |r.operands| && OtherBounds(l.operands[i], r.operands[i])
    case RoundingMismatch => l.rounding != r.rounding
    case _ => false
  }

  predicate OtherSchema(o: Operand, p: Operand) {
    o.operandId != p.operandId || o.semanticId != p.semanticId || o.role != p.role || o.position != p.position || o.required != p.required
  }

  predicate OtherBounds(o: Operand, p: Operand) {
    o.domain != p.domain || o.lowerBound != p.lowerBound || o.upperBound != p.upperBound || o.zeroAllowed != p.zeroAllowed
  }

  lemma SemanticDifferencesAre(l: Semantics, r: Semantics, reason: RegistrationReason)
    ensures reason in SemanticDifferences(l, r) <==> Differs(reason, l, r)
  {
    hide SameOperands, Flag, Differs, UnitOf, Schema, Bounds;
    OperandPart(l, r);
    PlainPart(l, r);
    NoOtherDifference(reason, l, r);
    InFlag(reason, l.semanticId != r.semanticId, SemanticIdMismatch);
    InFlag(reason, l.semanticVersion != r.semanticVersion, SemanticVersionMismatch);
    InFlag(reason, l.equationIdentityHash != r.equationIdentityHash, EquationMismatch);
    InFlag(reason, !SameOperands(l.operands, r.operands, Schema), OperandSchemaMismatch);
    InFlag(reason, !SameOperands(l.operands, r.operands, UnitOf) || l.output.unit != r.output.unit, UnitSchemaMismatch);
    InFlag(reason, l.output.(unit := r.output.unit) != r.output, OutputSemanticMismatch);
    InFlag(reason, !SameOperands(l.operands, r.operands, Bounds) || l.domainConstraintIds != r.domainConstraintIds, DomainMismatch);
    InFlag(reason, l.rounding != r.rounding, RoundingMismatch);
  }

  lemma OperandPart(l: Semantics, r: Semantics)
    ensures !SameOperands(l.operands, r.operands, Schema) <==> Differs(OperandSchemaMismatch, l, r)
    ensures !SameOperands(l.operands, r.operands, UnitOf) || l.output.unit != r.output.unit <==> Differs(UnitSchemaMismatch, l, r)
    ensures !SameOperands(l.operands, r.operands, Bounds) || l.domainConstraintIds != r.domainConstraintIds <==> Differs(DomainMismatch, l, r)
  {
    OperandsDiffer(l.operands, r.operands);
    hide SameOperands, OtherSchema, OtherBounds;
  }

  lemma PlainPart(l: Semantics, r: Semantics)
    ensures l.semanticId != r.semanticId <==> Differs(SemanticIdMismatch, l, r)
    ensures l.semanticVersion != r.semanticVersion <==> Differs(SemanticVersionMismatch, l, r)
    ensures l.equationIdentityHash != r.equationIdentityHash <==> Differs(EquationMismatch, l, r)
    ensures l.output.(unit := r.output.unit) != r.output <==> Differs(OutputSemanticMismatch, l, r)
    ensures l.rounding != r.rounding <==> Differs(RoundingMismatch, l, r)
  {
    OutputDiffers(l.output, r.output);
    hide OtherSchema, OtherBounds;
  }

  lemma NoOtherDifference(reason: RegistrationReason, l: Semantics, r: Semantics)
    ensures Differs(reason, l, r) ==>
            reason in {SemanticIdMismatch, SemanticVersionMismatch, EquationMismatch, OperandSchemaMismatch, UnitSchemaMismatch,
                       OutputSemanticMismatch, DomainMismatch, RoundingMismatch}
  {
    hide OtherSchema, OtherBounds;
  }

  lemma OutputDiffers(o: Output, p: Output)
    ensures o.(unit := p.unit) != p <==> o.semantic != p.semantic || o.binding != p.binding
                                         || o.explicitCurrency != p.explicitCurrency || o.signed != p.signed || o.zeroAllowed != p.zeroAllowed
  {
  }

  lemma OperandsDiffer(l: seq<Operand>, r: seq<Operand>)
    ensures !SameOperands(l, r, Schema) <==> |l| != |r| || exists i :: 0 <= i < |l| && i < |r| && OtherSchema(l[i], r[i])
    ensures !SameOperands(l, r, Bounds) <==> |l| != |r| || exists i :: 0 <= i < |l| && i < |r| && OtherBounds(l[i], r[i])
    ensures !SameOperands(l, r, UnitOf) <==> |l| != |r| || exists i :: 0 <= i < |l| && i < |r| && l[i].unit != r[i].unit
  {
  }

  /** How an expected declaration and another, either possibly missing, differ. */
  ghost predicate PairDiffers(reason: RegistrationReason, l: Option<Semantics>, r: Option<Semantics>) {
    if l == r then false
    else if l.None? || r.None? then reason == SemanticsMissing
    else if exists other :: Differs(other, l.value, r.value) then Differs(reason, l.value, r.value)
    else reason == CandidateIdentityMismatch
  }

  lemma SemanticMismatchIs(l: Option<Semantics>, r: Option<Semantics>, reason: RegistrationReason)
    ensures reason in SemanticMismatch(l, r) <==> PairDiffers(reason, l, r)
  {
    if l != r && l.Some? && r.Some? {
      var differences := SemanticDifferences(l.value, r.value);
      forall other ensures other in differences <==> Differs(other, l.value, r.value) {
        SemanticDifferencesAre(l.value, r.value, other);
      }
      hide SemanticDifferences, Differs;
      if other :| Differs(other, l.value, r.value) {
        assert other in differences;
      } else {
        assert differences == {};
      }
    }
  }

  ghost predicate EligibilityCause(reason: RegistrationReason, c: Lineage, v: Verification, a: Assessment, d: ReviewDecision,
                                   registry: EvidenceRegistry, revocations: seq<Revocation>, sha: Hasher)
    requires |d.artifactIds| == |d.hashes|
  {
    || PairDiffers(reason, c.semantics, a.semantics) || PairDiffers(reason, c.semantics, v.lineage.semantics)
    || match reason
       case SourceAssessmentInvalid => !AssessmentValid(a, d, registry, sha)
       case SourceAssessmentNotReady => a.state != ReadyForProofReview
       case AdvisoryDecisionNotApproved => d.state != ApprovedForProofReview
       case CandidateIdentityMismatch => c.assessmentId != a.assessmentId || c.decisionId != d.decisionId
       case RegistrationEvidenceMismatch => c.artifactIds != a.artifactIds || c.hashes != a.hashes
       case RegistrationClaimMismatch => c.claimIds != a.claimIds
       case RegistrationScopeMismatch => c.applicability != a.applicability || v.lineage.applicability != c.applicability
       case VerificationNotVerified => v.state != Verified
       case VerificationMismatch =>
         v.lineage.(applicability := c.applicability) != c
       case CandidateRevoked => exists r :: r in revocations && r.target == CandidateTarget && r.targetId == c.candidateId
       case VerificationRevoked => exists r :: r in revocations && r.target == VerificationTarget && r.targetId == v.verificationId
       case RevocationRecordConflict => !Distinct(RevocationIds(revocations))
       case _ => false
  }

  lemma ChainProblemsAre(c: Lineage, a: Assessment, d: ReviewDecision, registry: EvidenceRegistry, sha: Hasher, reason: RegistrationReason)
    requires |d.artifactIds| == |d.hashes|
    ensures reason in ChainProblems(c, a, d, registry, sha) <==>
            || PairDiffers(reason, c.semantics, a.semantics)
            || match reason
               case SourceAssessmentInvalid => !AssessmentValid(a, d, registry, sha)
               case SourceAssessmentNotReady => a.state != ReadyForProofReview
               case AdvisoryDecisionNotApproved => d.state != ApprovedForProofReview
               case CandidateIdentityMismatch => c.assessmentId != a.assessmentId || c.decisionId != d.decisionId
               case RegistrationEvidenceMismatch => c.artifactIds != a.artifactIds || c.hashes != a.hashes
               case RegistrationClaimMismatch => c.claimIds != a.claimIds
               case RegistrationScopeMismatch => c.applicability != a.applicability
               case _ => false
  {
    hide AssessmentValid, SemanticMismatch, PairDiffers, Flag;
    SemanticMismatchIs(c.semantics, a.semantics, reason);
    InFlag(reason, !AssessmentValid(a, d, registry, sha), SourceAssessmentInvalid);
    InFlag(reason, !a.state.ReadyForProofReview?, SourceAssessmentNotReady);
    InFlag(reason, !d.state.ApprovedForProofReview?, AdvisoryDecisionNotApproved);
    InFlag(reason, c.assessmentId != a.assessmentId || c.decisionId != d.decisionId, CandidateIdentityMismatch);
    InFlag(reason, c.artifactIds != a.artifactIds || c.hashes != a.hashes, RegistrationEvidenceMismatch);
    InFlag(reason, c.claimIds != a.claimIds, RegistrationClaimMismatch);
    InFlag(reason, c.applicability != a.applicability, RegistrationScopeMismatch);
  }

  lemma VerificationProblemsAre(c: Lineage, v: Verification, reason: RegistrationReason)
    ensures reason in VerificationProblems(c, Some(v)) <==>
            || PairDiffers(reason, c.semantics, v.lineage.semantics)
            || match reason
               case VerificationNotVerified => v.state != Verified
               case VerificationMismatch => v.lineage.(applicability := c.applicability) != c
               case RegistrationScopeMismatch => v.lineage.applicability != c.applicability
               case _ => false
  {
    hide SemanticMismatch, PairDiffers, Flag;
    var semantic := SemanticMismatch(c.semantics, v.lineage.semantics);
    var other := v.lineage.(applicability := c.applicability, semantics := c.semantics) != c;
    SemanticMismatchIs(c.semantics, v.lineage.semantics, reason);
    LineageDiffers(v.lineage, c);
    InFlag(reason, !v.state.Verified?, VerificationNotVerified);
    InFlag(reason, other, VerificationMismatch);
    InFlag(reason, v.lineage.applicability != c.applicability, RegistrationScopeMismatch);
    InFlag(reason, semantic != {}, VerificationMismatch);
  }

  lemma InFlag<R>(reason: R, condition: bool, flagged: R)
    ensures reason in Flag(condition, flagged) <==> condition && reason == flagged
  {
  }

  lemma LineageDiffers(l: Lineage, c: Lineage)
    ensures l.(applicability := c.applicability) != c <==>
            l.(applicability := c.applicability, semantics := c.semantics) != c || l.semantics != c.semantics
  {
  }

  lemma RevocationProblemsAre(c: Lineage, v: Verification, revocations: seq<Revocation>, reason: RegistrationReason)
    ensures reason in RevocationProblems(c, Some(v), revocations) <==>
            match reason
            case CandidateRevoked => exists r :: r in revocations && r.target == CandidateTarget && r.targetId == c.candidateId
            case VerificationRevoked => exists r :: r in revocations && r.target == VerificationTarget && r.targetId == v.verificationId
            case RevocationRecordConflict => !Distinct(RevocationIds(revocations))
            case _ => false
  {
    SomeHitIff(revocations, CandidateTarget, c.candidateId);
    SomeHitIff(revocations, VerificationTarget, v.verificationId);
    hide SomeHit, Distinct;
  }

  ghost predicate NoEligibilityCause(c: Lineage, v: Verification, a: Assessment, d: ReviewDecision,
                                     registry: EvidenceRegistry, revocations: seq<Revocation>, sha: Hasher)
    requires |d.artifactIds| == |d.hashes|
  {
    forall reason :: !EligibilityCause(reason, c, v, a, d, registry, revocations, sha)
  }

  /** Eligibility is complete exactly without a cause; otherwise its reasons are exactly the causes. */
  lemma EligibilityReasonsAre(candidate: Candidate, v: Verification, a: Assessment, d: ReviewDecision,
                              registry: EvidenceRegistry, revocations: seq<Revocation>, sha: Hasher)
    requires |d.artifactIds| == |d.hashes|
    ensures var r := EligibilityOf(candidate, Some(v), a, d, registry, revocations, sha);
            if NoEligibilityCause(candidate.lineage, v, a, d, registry, revocations, sha) then r == COMPLETE
            else !r.eligible
                 && forall reason :: reason in r.reasons <==> EligibilityCause(reason, candidate.lineage, v, a, d, registry, revocations, sha)
  {
    hide PairDiffers, AssessmentValid, ChainProblems, VerificationProblems, RevocationProblems, Distinct;
    var c := candidate.lineage;
    var reasons := ChainProblems(c, a, d, registry, sha) + VerificationProblems(c, Some(v)) + RevocationProblems(c, Some(v), revocations);
    forall reason ensures reason in reasons <==> EligibilityCause(reason, c, v, a, d, registry, revocations, sha) {
      ChainProblemsAre(c, a, d, registry, sha, reason);
      VerificationProblemsAre(c, v, reason);
      RevocationProblemsAre(c, v, revocations, reason);
    }
    hide EligibilityCause;
    if NoEligibilityCause(c, v, a, d, registry, revocations, sha) {
      assert reasons == {};
    }
  }

  // ---------------------------------------------------------------- admission

  /** Why an attempt is not sound. */
  ghost predicate AdmissionCause(reason: AdmissionReason, x: Attempt, sha: Hasher)
    requires |x.decision.artifactIds| == |x.decision.hashes|
  {
    var r, c := x.request.lineage, x.candidate.lineage;
    match reason
    case EligibilityInvalid => !x.eligibility.eligible
    case EligibilityStale =>
      || !x.eligibility.eligible
      || x.eligibility != EligibilityOf(x.candidate, Some(x.verification), x.assessment, x.decision, x.evidence, x.revocations, sha)
    case CandidateMismatch => r.candidateId != c.candidateId
    case MaterialHashMismatch => r.materialHash != c.materialHash
    case AdmissionVerificationMismatch => x.request.verificationId != x.verification.verificationId
    case AdvisoryChainMismatch => r.assessmentId != x.assessment.assessmentId || r.decisionId != x.decision.decisionId
    case AdmissionEvidenceMismatch => r.artifactIds != c.artifactIds || r.hashes != c.hashes
    case AdmissionClaimMismatch => r.claimIds != c.claimIds
    case AdmissionScopeMismatch => r.applicability != c.applicability
    case LossModelMismatch =>
      || r.lossModelId != c.lossModelId || r.lossModelVersion != c.lossModelVersion || r.evidenceSourceId != c.evidenceSourceId
      || r.validFrom != c.validFrom || r.validUntil != c.validUntil || r.semantics != c.semantics
      || c.semantics != x.verification.lineage.semantics || c.semantics != x.assessment.semantics || c.semantics != x.decision.semantics
    case AdmissionRevocationConflict => !Distinct(RevocationIds(x.revocations))
    case AdmissionCandidateRevoked => exists v :: v in x.revocations && v.target == CandidateTarget && v.targetId == r.candidateId
    case VerificationSuperseded => exists v :: v in x.revocations && Overturns(v, x.verification.verificationId) && v.reason == Superseded
    case AdmissionVerificationRevoked => exists v :: v in x.revocations && Overturns(v, x.verification.verificationId) && v.reason != Superseded
    case ProofRevoked => exists v :: v in x.revocations && v.target == ProofTarget && v.targetId == x.request.proofId
    case _ => false
  }

  predicate Overturns(v: Revocation, verificationId: string) {
    v.target == VerificationTarget && v.targetId == verificationId
  }

  lemma SomeReasonIff(revocations: seq<Revocation>, id: string, superseded: bool)
    ensures SomeReason(revocations, id, superseded) <==>
            exists v :: v in revocations && Overturns(v, id) && (v.reason == Superseded) == superseded
  {
    if SomeReason(revocations, id, superseded) {
      var i :| 0 <= i < |revocations| && Hits(revocations[i], VerificationTarget, id) && revocations[i].reason.Superseded? == superseded;
      assert revocations[i] in revocations && Overturns(revocations[i], id);
    }
    if v :| v in revocations && Overturns(v, id) && (v.reason == Superseded) == superseded {
      var i :| 0 <= i < |revocations| && revocations[i] == v;
      assert Hits(revocations[i], VerificationTarget, id);
    }
  }

  lemma RevocationFlagsAre(request: Request, id: string, revocations: seq<Revocation>, reason: AdmissionReason)
    ensures reason in RevocationFlags(request, id, revocations) <==>
            match reason
            case AdmissionCandidateRevoked => exists v :: v in revocations && v.target == CandidateTarget && v.targetId == request.lineage.candidateId
            case VerificationSuperseded => exists v :: v in revocations && Overturns(v, id) && v.reason == Superseded
            case AdmissionVerificationRevoked => exists v :: v in revocations && Overturns(v, id) && v.reason != Superseded
            case ProofRevoked => exists v :: v in revocations && v.target == ProofTarget && v.targetId == request.proofId
            case _ => false
  {
    hide Flag, SomeHit, SomeReason, Overturns;
    SomeHitIff(revocations, CandidateTarget, request.lineage.candidateId);
    SomeHitIff(revocations, ProofTarget, request.proofId);
    SomeReasonIff(revocations, id, true);
    SomeReasonIff(revocations, id, false);
    InFlag(reason, SomeHit(revocations, CandidateTarget, request.lineage.candidateId), AdmissionCandidateRevoked);
    InFlag(reason, SomeReason(revocations, id, true), VerificationSuperseded);
    InFlag(reason, SomeReason(revocations, id, false), AdmissionVerificationRevoked);
    InFlag(reason, SomeHit(revocations, ProofTarget, request.proofId), ProofRevoked);
  }

  lemma LineageFlagsAre(x: Attempt, reason: AdmissionReason)
    ensures reason in LineageFlags(x) <==>
            var r, c := x.request.lineage, x.candidate.lineage;
            match reason
            case CandidateMismatch => r.candidateId != c.candidateId
            case MaterialHashMismatch => r.materialHash != c.materialHash
            case AdmissionVerificationMismatch => x.request.verificationId != x.verification.verificationId
            case AdvisoryChainMismatch => r.assessmentId != x.assessment.assessmentId || r.decisionId != x.decision.decisionId
            case AdmissionEvidenceMismatch => r.artifactIds != c.artifactIds || r.hashes != c.hashes
            case AdmissionClaimMismatch => r.claimIds != c.claimIds
            case AdmissionScopeMismatch => r.applicability != c.applicability
            case LossModelMismatch =>
              || r.lossModelId != c.lossModelId || r.lossModelVersion != c.lossModelVersion || r.evidenceSourceId != c.evidenceSourceId
              || r.validFrom != c.validFrom || r.validUntil != c.validUntil || r.semantics != c.semantics
              || c.semantics != x.verification.lineage.semantics || c.semantics != x.assessment.semantics || c.semantics != x.decision.semantics
            case _ => false
  {
    hide Flag;
    var r, c := x.request.lineage, x.candidate.lineage;
    InFlag(reason, r.candidateId != c.candidateId, CandidateMismatch);
    InFlag(reason, r.materialHash != c.materialHash, MaterialHashMismatch);
    InFlag(reason, x.request.verificationId != x.verification.verificationId, AdmissionVerificationMismatch);
    InFlag(reason, r.assessmentId != x.assessment.assessmentId || r.decisionId != x.decision.decisionId, AdvisoryChainMismatch);
    InFlag(reason, r.artifactIds != c.artifactIds || r.hashes != c.hashes, AdmissionEvidenceMismatch);
    InFlag(reason, r.claimIds != c.claimIds, AdmissionClaimMismatch);
    InFlag(reason, r.applicability != c.applicability, AdmissionScopeMismatch);
    InFlag(reason, r.lossModelId != c.lossModelId || r.lossModelVersion != c.lossModelVersion || r.evidenceSourceId != c.evidenceSourceId
                   || r.validFrom != c.validFrom || r.validUntil != c.validUntil, LossModelMismatch);
    InFlag(reason, r.semantics != c.semantics || c.semantics != x.verification.lineage.semantics
                   || c.semantics != x.assessment.semantics || c.semantics != x.decision.semantics, LossModelMismatch);
  }

  lemma AdmissionProblemsAre(x: Attempt, sha: Hasher, reason: AdmissionReason)
    requires |x.decision.artifactIds| == |x.decision.hashes|
    ensures reason in AdmissionProblems(x, sha) <==> AdmissionCause(reason, x, sha)
  {
    hide Flag, LineageFlags, RevocationFlags, EligibilityOf, Distinct, Overturns;
    var recomputed := EligibilityOf(x.candidate, Some(x.verification), x.assessment, x.decision, x.evidence, x.revocations, sha);
    LineageFlagsAre(x, reason);
    RevocationFlagsAre(x.request, x.verification.verificationId, x.revocations, reason);
    InFlag(reason, !x.eligibility.eligible, EligibilityInvalid);
    InFlag(reason, recomputed != x.eligibility || !recomputed.eligible, EligibilityStale);
    InFlag(reason, !Distinct(RevocationIds(x.revocations)), AdmissionRevocationConflict);
  }

  /** Some entry has this authority. */
  ghost predicate Known(registry: ProofRegistry, request: Request) {
    exists e :: HasAuthority(registry, e, request)
  }

  /** Why a registry turns the request away: an identity it already uses. */
  ghost predicate RegistryCause(reason: AdmissionReason, registry: ProofRegistry, request: Request) {
    match reason
    case ProofIdConflict => exists e :: e in registry.entries && e.request.proofId == request.proofId
    case RegistryStateConflict =>
      exists e :: e in registry.entries && (e.request.admissionId == request.admissionId
                                            || e.request.lineage.candidateId == request.lineage.candidateId)
    case _ => false
  }

  lemma ClashesIff(registry: ProofRegistry, request: Request)
    ensures Clashes(registry, request) <==> RegistryCause(RegistryStateConflict, registry, request)
    ensures registry.GetHistorical(request.proofId).Some? <==> RegistryCause(ProofIdConflict, registry, request)
  {
    hide ProofRegistry.Find;
    if Clashes(registry, request) {
      var i :| 0 <= i < |registry.entries|
            && (registry.entries[i].request.admissionId == request.admissionId
                || registry.entries[i].request.lineage.candidateId == request.lineage.candidateId);
      assert registry.entries[i] in registry.entries;
    }
    if e :| e in registry.entries && (e.request.admissionId == request.admissionId || e.request.lineage.candidateId == request.lineage.candidateId) {
      var i :| 0 <= i < |registry.entries| && registry.entries[i] == e;
    }
  }

  lemma KnownIff(registry: ProofRegistry, request: Request)
    requires registry.Valid()
    ensures Known(registry, request) <==>
            var existing := registry.GetHistorical(request.proofId);
            existing.Some? && existing.value.request.Authority() == request.Authority()
  {
    hide ProofRegistry.Valid, ProofRegistry.Find, Request.Authority;
    var existing := registry.GetHistorical(request.proofId);
    if existing.Some? {
      AuthorityIff(existing.value.request, request);
    }
    if existing.Some? && existing.value.request.Authority() == request.Authority() {
      assert HasAuthority(registry, existing.value, request);
    }
    if e :| HasAuthority(registry, e, request) {
      HeldIsFound(registry, e, request);
      AuthorityIff(e.request, request);
    }
  }

  /**
    A rejected attempt is answered with exactly its causes, the registry's own included unless the authority
    is already known; and an attempt is rejected exactly when there is one.
  */
  lemma RejectionReasonsAre(registry: ProofRegistry, x: Attempt, sha: Hasher)
    requires registry.Valid() && x.Valid(sha)
    ensures |x.decision.artifactIds| == |x.decision.hashes|
    ensures var outcome := Admit(registry, x, sha);
            && (outcome.state.AdmissionRejected? <==>
                  exists reason :: AdmissionCause(reason, x, sha) || (!Known(registry, x.request) && RegistryCause(reason, registry, x.request)))
            && (outcome.state.AdmissionRejected? ==>
                  outcome.entry.None? && outcome.registry == registry
                  && forall reason :: reason in outcome.reasons <==>
                       AdmissionCause(reason, x, sha) || (!Known(registry, x.request) && RegistryCause(reason, registry, x.request)))
  {
    hide ProofRegistry.Valid, Attempt.Valid, AdmissionProblems, AdmissionCause, Clashes, ProofRegistry.GetHistorical, Request.Authority, Known, Sorted, Flag, Sound;
    ProblemsClearIffSound(x, sha);
    KnownIff(registry, x.request);
    ClashesIff(registry, x.request);
    var existing := registry.GetHistorical(x.request.proofId);
    var own := Flag(existing.Some?, ProofIdConflict) + Flag(Clashes(registry, x.request), RegistryStateConflict);
    forall reason ensures reason in AdmissionProblems(x, sha) <==> AdmissionCause(reason, x, sha) {
      AdmissionProblemsAre(x, sha, reason);
    }
    forall reason ensures reason in own <==> RegistryCause(reason, registry, x.request) {
      InFlag(reason, existing.Some?, ProofIdConflict);
      InFlag(reason, Clashes(registry, x.request), RegistryStateConflict);
    }
    RejectedOf(registry, x, sha, own);
  }

  lemma RejectedOf(registry: ProofRegistry, x: Attempt, sha: Hasher, own: set<AdmissionReason>)
    requires |x.decision.artifactIds| == |x.decision.hashes|
    requires own == Flag(registry.GetHistorical(x.request.proofId).Some?, ProofIdConflict) + Flag(Clashes(registry, x.request), RegistryStateConflict)
    ensures var outcome := Admit(registry, x, sha);
            var existing := registry.GetHistorical(x.request.proofId);
            var known := existing.Some? && existing.value.request.Authority() == x.request.Authority();
            var all := if known then AdmissionProblems(x, sha) else AdmissionProblems(x, sha) + own;
            && (outcome.state.AdmissionRejected? <==> all != {})
            && (outcome.state.AdmissionRejected? ==> outcome == Outcome(AdmissionRejected, all, None, registry))
  {
    hide AdmissionProblems, Clashes, ProofRegistry.GetHistorical, Request.Authority, Sorted, Flag;
    assert AdmissionProblems(x, sha) + own ==
           AdmissionProblems(x, sha) + Flag(registry.GetHistorical(x.request.proofId).Some?, ProofIdConflict) + Flag(Clashes(registry, x.request), RegistryStateConflict);
  }

  // ---------------------------------------------------------------- consumption

  predicate MismatchCause(reason: ConsumptionReason, request: ConsumptionRequest, e: Entry) {
    var l, m := request.lineage, e.request.lineage;
    match reason
    case ConsumedHashMismatch => l.materialHash != m.materialHash || l.hashes != m.hashes
    case ConsumedLineageMismatch =>
      || request.proofId != e.request.proofId || request.admissionId != e.request.admissionId
      || request.verificationId != e.request.verificationId || l.candidateId != m.candidateId
      || l.lossModelId != m.lossModelId || l.lossModelVersion != m.lossModelVersion || l.evidenceSourceId != m.evidenceSourceId
      || l.assessmentId != m.assessmentId || l.decisionId != m.decisionId || l.artifactIds != m.artifactIds || l.claimIds != m.claimIds
      || l.validFrom != m.validFrom || l.validUntil != m.validUntil || l.semantics != m.semantics
    case NotYetEffective => request.evaluatedAt < m.validFrom
    case Expired => request.evaluatedAt > m.validUntil
    case _ => false
  }

  /** Each mismatch is reported exactly for its cause. */
  lemma MismatchReasonsAre(request: ConsumptionRequest, e: Entry, reason: ConsumptionReason)
    ensures reason in MismatchReasons(request, e) <==> MismatchCause(reason, request, e)
  {
    hide Flag;
    var l, m := request.lineage, e.request.lineage;
    var other := request.proofId != e.request.proofId || request.admissionId != e.request.admissionId
                 || request.verificationId != e.request.verificationId
                 || l.(materialHash := m.materialHash, hashes := m.hashes, applicability := m.applicability) != m;
    InFlag(reason, l.materialHash != m.materialHash || l.hashes != m.hashes, ConsumedHashMismatch);
    InFlag(reason, other, ConsumedLineageMismatch);
    InFlag(reason, request.evaluatedAt < m.validFrom, NotYetEffective);
    InFlag(reason, request.evaluatedAt > m.validUntil, Expired);
  }

  predicate RevokedCause(reason: ConsumptionReason, e: Entry, v: Revocation) {
    match reason
    case ConsumedProofRevoked => v.target == ProofTarget && v.targetId == e.request.proofId
    case ConsumedCandidateRevoked => v.target == CandidateTarget && v.targetId == e.request.lineage.candidateId
    case ConsumedVerificationSuperseded => Overturns(v, e.request.verificationId) && v.reason == Superseded
    case ConsumedVerificationRevoked => Overturns(v, e.request.verificationId) && v.reason != Superseded
    case _ => false
  }

  /** Each revocation reason of an entry is reported exactly when some record gives cause for it. */
  lemma RevocationReasonsAre(e: Entry, revocations: seq<Revocation>, reason: ConsumptionReason)
    ensures reason in RevocationReasons(e, revocations) <==> exists v :: v in revocations && RevokedCause(reason, e, v)
  {
    hide Flag, SomeHit, SomeReason, Overturns;
    SomeHitIff(revocations, ProofTarget, e.request.proofId);
    SomeHitIff(revocations, CandidateTarget, e.request.lineage.candidateId);
    SomeReasonIff(revocations, e.request.verificationId, true);
    SomeReasonIff(revocations, e.request.verificationId, false);
    InFlag(reason, SomeHit(revocations, ProofTarget, e.request.proofId), ConsumedProofRevoked);
    InFlag(reason, SomeHit(revocations, CandidateTarget, e.request.lineage.candidateId), ConsumedCandidateRevoked);
    InFlag(reason, SomeReason(revocations, e.request.verificationId, true), ConsumedVerificationSuperseded);
    InFlag(reason, SomeReason(revocations, e.request.verificationId, false), ConsumedVerificationRevoked);
  }

  // ---------------------------------------------------------------- lookup and consumption, answer by answer

  predicate InScopeOf(registry: ProofRegistry, a: Applicability, e: Entry) {
    e in registry.entries && e.request.lineage.applicability == a
  }

  /** The scope has several entries. */
  ghost predicate Several(registry: ProofRegistry, a: Applicability) {
    exists e, f :: InScopeOf(registry, a, e) && InScopeOf(registry, a, f) && e != f
  }

  ghost predicate IsNamed(e: Entry, revocations: seq<Revocation>) {
    exists v :: v in revocations && Names(v, e)
  }

  lemma ScopeCases(registry: ProofRegistry, a: Applicability)
    requires registry.Valid()
    ensures var matches := Matches(registry.entries, a);
            && (matches == [] <==> !exists e :: InScopeOf(registry, a, e))
            && (|matches| > 1 <==> Several(registry, a))
            && (|matches| == 1 ==> forall e :: InScopeOf(registry, a, e) <==> e == matches[0])
  {
    hide Sorted, Entry.Valid, Matches, Keys;
    assert Distinct(Keys(registry.entries, ProofIdOf));
    MatchesDistinct(registry.entries, a);
    var matches := Matches(registry.entries, a);
    hide ProofRegistry.Valid;
    if matches != [] {
      assert matches[0] in matches && InScopeOf(registry, a, matches[0]);
    }
    if |matches| > 1 {
      assert matches[1] in matches && InScopeOf(registry, a, matches[1]) && matches[0] != matches[1];
    }
    if |matches| == 1 {
      forall e ensures InScopeOf(registry, a, e) <==> e == matches[0] {
        assert InScopeOf(registry, a, e) <==> e in matches;
      }
    }
  }

  /** What lookup answers: by the entries of exactly this scope and the revocations that name them. */
  lemma LookupAnswers(registry: ProofRegistry, a: Applicability, revocations: seq<Revocation>)
    requires registry.Valid()
    ensures var r := Lookup(registry, a, revocations);
            if !Distinct(RevocationIds(revocations)) || Several(registry, a) then r == LookupResult(ConflictingState, None)
            else if !exists e :: InScopeOf(registry, a, e) then r == LookupResult(NoEntry, None)
            else exists e :: InScopeOf(registry, a, e) && r == LookupResult(if IsNamed(e, revocations) then RevokedEntry else ActiveEntry, Some(e))
  {
    hide ProofRegistry.Valid, Matches, EntryRevoked, Distinct, InScopeOf, Several, IsNamed;
    ScopeCases(registry, a);
    var matches := Matches(registry.entries, a);
    if |matches| == 1 {
      NamedIff(matches[0], revocations);
    }
  }

  lemma NamedIff(e: Entry, revocations: seq<Revocation>)
    ensures EntryRevoked(e, revocations) <==> IsNamed(e, revocations)
  {
    EntryRevokedIff(e, revocations);
    hide EntryRevoked, Names;
  }

  /** The reasons are exactly those the records give against the entry. */
  ghost predicate ReportsRevocation(reasons: set<ConsumptionReason>, e: Entry, revocations: seq<Revocation>) {
    forall reason :: reason in reasons <==> exists v :: v in revocations && RevokedCause(reason, e, v)
  }

  ghost predicate ReportsMismatch(reasons: set<ConsumptionReason>, request: ConsumptionRequest, e: Entry) {
    forall reason :: reason in reasons <==> MismatchCause(reason, request, e)
  }

  /** What consumption answers about the one entry of the scope. */
  ghost predicate AnswersEntry(r: ConsumptionResult, request: ConsumptionRequest, e: Entry, revocations: seq<Revocation>) {
    if IsNamed(e, revocations) then r.state == ProofRevokedState && r.entry.None? && ReportsRevocation(r.reasons, e, revocations)
    else if exists reason :: MismatchCause(reason, request, e) then
      r.state == ProofUnavailable && r.entry.None? && ReportsMismatch(r.reasons, request, e)
    else r == ConsumptionResult(ProofAvailable, {ExactActiveProof}, Some(e))
  }

  lemma EntryAnswered(registry: ProofRegistry, request: ConsumptionRequest, revocations: seq<Revocation>, e: Entry)
    requires registry.Valid() && Distinct(RevocationIds(revocations)) && Consistent(revocations)
    requires Lookup(registry, request.lineage.applicability, revocations) ==
             LookupResult(if IsNamed(e, revocations) then RevokedEntry else ActiveEntry, Some(e))
    ensures AnswersEntry(Consume(registry, request, revocations), request, e, revocations)
  {
    hide ProofRegistry.Valid, Lookup, IsNamed, Distinct, Consistent, MismatchReasons, RevocationReasons, MismatchCause, RevokedCause;
    NamedIff(e, revocations);
    if EntryRevoked(e, revocations) {
      RevokedHasReasons(e, revocations);
      forall reason ensures reason in RevocationReasons(e, revocations) <==> exists v :: v in revocations && RevokedCause(reason, e, v) {
        RevocationReasonsAre(e, revocations, reason);
      }
    }
    forall reason ensures reason in MismatchReasons(request, e) <==> MismatchCause(reason, request, e) {
      MismatchReasonsAre(request, e, reason);
    }
  }

  /** Every answer of consumption, reason by reason. */
  lemma ConsumeAnswers(registry: ProofRegistry, request: ConsumptionRequest, revocations: seq<Revocation>)
    ensures var r, a := Consume(registry, request, revocations), request.lineage.applicability;
            if !registry.Valid() then r == ConsumptionResult(ProofUnavailable, {MalformedRegistry}, None)
            else if !Distinct(RevocationIds(revocations)) || !Consistent(revocations) then
              r == ConsumptionResult(ProofConflict, {RevocationConflict}, None)
            else if Several(registry, a) then r == ConsumptionResult(ProofConflict, {RegistryConflict}, None)
            else if !exists e :: InScopeOf(registry, a, e) then
              r == ConsumptionResult(ProofUnavailable, {if registry.entries == [] then NoMatchingProof else ConsumedScopeMismatch}, None)
            else exists e :: InScopeOf(registry, a, e) && AnswersEntry(r, request, e, revocations)
  {
    hide ProofRegistry.Valid, Lookup, Distinct, Consistent, MismatchReasons, RevocationReasons, InScopeOf, Several, IsNamed, AnswersEntry;
    var a := request.lineage.applicability;
    if registry.Valid() && Distinct(RevocationIds(revocations)) && Consistent(revocations) {
      LookupAnswers(registry, a, revocations);
      if !Several(registry, a) {
        if some :| InScopeOf(registry, a, some) {
          var e :| InScopeOf(registry, a, e)
                && Lookup(registry, a, revocations) == LookupResult(if IsNamed(e, revocations) then RevokedEntry else ActiveEntry, Some(e));
          EntryAnswered(registry, request, revocations, e);
        }
      }
    }
  }
}
