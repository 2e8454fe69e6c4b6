/** Matching a review decision to the current evidence (broker/deriv_evidence_review.py). */
module EvidenceReview {
  import opened Prelude
  import opened Texts
  import opened Evidence

  datatype DecisionState = ApprovedForProofReview | DecisionRejected | DecisionInsufficient

  datatype ReviewReason =
    | MissingRequiredClaim | ArtifactRejected | ClaimRejected | ArtifactUnreviewed | ClaimUnreviewed
    | ForeignApplicability | ContentIdentityMismatch | ConflictingClaim | EvidenceSetComplete

  datatype ReviewDecision = ReviewDecision(
    schemaVersion: int, decisionId: string, artifactIds: seq<string>, hashes: seq<string>, claimIds: seq<string>,
    state: DecisionState, reasonCodes: set<ReviewReason>, reviewerId: string, reviewedAt: int,
    applicability: Applicability, rationale: Option<string>, semantics: Option<Semantics>)
  {
    predicate Valid() {
      && schemaVersion == 1 && NonBlank(decisionId) && NonBlank(reviewerId) && OptionalText(rationale)
      && (semantics.Some? ==> semantics.value.Valid() && semantics.value.applicability == applicability)
      && EvidenceTuples(artifactIds, hashes, claimIds) && reasonCodes != {} && applicability.Valid()
      && (if state.ApprovedForProofReview? then
            artifactIds != [] && claimIds != [] && reasonCodes == {EvidenceSetComplete}
          else EvidenceSetComplete !in reasonCodes)
    }
  }

  function Flag<R(==)>(condition: bool, reason: R): set<R> {
    if condition then {reason} else {}
  }

  /** Artifacts of the registry named by these identities, unknown ones skipped. */
  function Resolve(registry: EvidenceRegistry, ids: seq<string>): seq<Artifact> {
    if ids == [] then [] else
    match registry.GetById(Last(ids))
    case None => Resolve(registry, Init(ids))
    case Some(a) => Resolve(registry, Init(ids)) + [a]
  }

  function AddClaims(index: map<string, Claim>, claims: seq<Claim>): map<string, Claim> {
    if claims == [] then index else AddClaims(index, Init(claims))[Last(claims).claimId := Last(claims)]
  }

  /** claims_by_id: a later claim replaces an earlier one of the same identity. */
  function ClaimIndex(artifacts: seq<Artifact>): map<string, Claim> {
    if artifacts == [] then map[] else AddClaims(ClaimIndex(Init(artifacts)), Last(artifacts).claims)
  }

  function Select(index: map<string, Claim>, ids: seq<string>): seq<Claim> {
    if ids == [] then [] else
    if Last(ids) in index then Select(index, Init(ids)) + [index[Last(ids)]] else Select(index, Init(ids))
  }

  predicate Mismatched(registry: EvidenceRegistry, id: string, hash: string) {
    match registry.GetById(id) case None => true case Some(a) => a.contentHash != hash
  }

  predicate SomeArtifact(artifacts: seq<Artifact>, state: ReviewState) {
    exists i :: 0 <= i < |artifacts| && artifacts[i].reviewState == state
  }

  predicate SomeClaim(claims: seq<Claim>, state: ReviewState) {
    exists i :: 0 <= i < |claims| && claims[i].reviewState == state
  }

  predicate SomeForeign(claims: seq<Claim>, applicability: Applicability) {
    exists i :: 0 <= i < |claims| && claims[i].applicability != applicability
  }

  predicate Contradict(a: Claim, b: Claim) {
    && (a.claimType, a.subject, a.applicability) == (b.claimType, b.subject, b.applicability)
    && a.value != b.value
  }

  predicate Conflicting(claims: seq<Claim>) {
    exists i, j :: 0 <= i < j < |claims| && Contradict(claims[i], claims[j])
  }

  predicate SemanticsBound(semantics: Option<Semantics>, claims: seq<Claim>, sha: Hasher) {
    semantics.Some? ==>
      exists i :: 0 <= i < |claims| && claims[i].claimType.LossModelDescriptionIdentity? && claims[i].value == sha(semantics.value)
  }

  function ArtifactReasons(d: ReviewDecision, registry: EvidenceRegistry, n: nat): set<ReviewReason>
    requires n <= |d.artifactIds| == |d.hashes|
  {
    var artifacts := Resolve(registry, d.artifactIds[..n]);
    Flag(d.artifactIds == [], MissingRequiredClaim)
    + Flag(exists i :: 0 <= i < n && Mismatched(registry, d.artifactIds[i], d.hashes[i]), ContentIdentityMismatch)
    + Flag(SomeArtifact(artifacts, Rejected), ArtifactRejected)
    + Flag(SomeArtifact(artifacts, Unreviewed), ArtifactUnreviewed)
  }

  function ClaimReasons(d: ReviewDecision, index: map<string, Claim>, n: nat): set<ReviewReason>
    requires n <= |d.claimIds|
  {
    var claims := Select(index, d.claimIds[..n]);
    Flag(d.claimIds == [] || exists i :: 0 <= i < n && d.claimIds[i] !in index, MissingRequiredClaim)
    + Flag(SomeClaim(claims, Rejected), ClaimRejected)
    + Flag(SomeClaim(claims, Unreviewed), ClaimUnreviewed)
    + Flag(SomeForeign(claims, d.applicability), ForeignApplicability)
  }

  function Problems(d: ReviewDecision, registry: EvidenceRegistry, sha: Hasher): set<ReviewReason>
    requires |d.artifactIds| == |d.hashes|
  {
    var index := ClaimIndex(Resolve(registry, d.artifactIds));
    var claims := Select(index, d.claimIds);
    ArtifactReasons(d, registry, |d.artifactIds|) + ClaimReasons(d, index, |d.claimIds|)
    + Flag(Conflicting(claims), ConflictingClaim)
    + Flag(!SemanticsBound(d.semantics, claims, sha), MissingRequiredClaim)
  }

  function Observed(d: ReviewDecision, registry: EvidenceRegistry, sha: Hasher): set<ReviewReason>
    requires |d.artifactIds| == |d.hashes|
  {
    var problems := Problems(d, registry, sha);
    if problems == {} then {EvidenceSetComplete} else problems
  }

  predicate ReviewValid(d: ReviewDecision, registry: EvidenceRegistry, sha: Hasher)
    requires |d.artifactIds| == |d.hashes|
  {
    var observed := Observed(d, registry, sha);
    && ContentIdentityMismatch !in observed && observed == d.reasonCodes
    && match d.state
       case ApprovedForProofReview => observed == {EvidenceSetComplete}
       case DecisionRejected => observed * {ArtifactRejected, ClaimRejected, ForeignApplicability, ConflictingClaim} != {}
       case DecisionInsufficient => observed * {ArtifactUnreviewed, ClaimUnreviewed, MissingRequiredClaim} != {}
  }

  // ---------------------------------------------------------------- the loops

  lemma ArtifactReasonsStep(d: ReviewDecision, registry: EvidenceRegistry, n: nat)
    requires n < |d.artifactIds| == |d.hashes|
    ensures ArtifactReasons(d, registry, n + 1) == ArtifactReasons(d, registry, n) +
            match registry.GetById(d.artifactIds[n])
            case None => {ContentIdentityMismatch}
            case Some(a) =>
              Flag(a.contentHash != d.hashes[n], ContentIdentityMismatch)
              + Flag(a.reviewState.Rejected?, ArtifactRejected) + Flag(a.reviewState.Unreviewed?, ArtifactUnreviewed)
    ensures Resolve(registry, d.artifactIds[..n + 1]) == Resolve(registry, d.artifactIds[..n]) +
            match registry.GetById(d.artifactIds[n]) case None => [] case Some(a) => [a]
  {
    hide EvidenceRegistry.GetById, SomeArtifact;
    assert Init(d.artifactIds[..n + 1]) == d.artifactIds[..n];
    var found := registry.GetById(d.artifactIds[n]);
    var before := Resolve(registry, d.artifactIds[..n]);
    assert (exists i :: 0 <= i < n + 1 && Mismatched(registry, d.artifactIds[i], d.hashes[i])) <==>
           (exists i :: 0 <= i < n && Mismatched(registry, d.artifactIds[i], d.hashes[i])) || Mismatched(registry, d.artifactIds[n], d.hashes[n]);
    if found.Some? {
      SnocArtifact(before, found.value, Rejected);
      SnocArtifact(before, found.value, Unreviewed);
    }
  }

  method ScanArtifacts(d: ReviewDecision, registry: EvidenceRegistry) returns (artifacts: seq<Artifact>, reasons: set<ReviewReason>)
    requires |d.artifactIds| == |d.hashes|
    ensures artifacts == Resolve(registry, d.artifactIds)
    ensures reasons == ArtifactReasons(d, registry, |d.artifactIds|)
  {
    artifacts, reasons := [], Flag(d.artifactIds == [], MissingRequiredClaim);
    assert reasons == ArtifactReasons(d, registry, 0);
    hide EvidenceRegistry.GetById, ArtifactReasons;
    for n := 0 to |d.artifactIds|
      invariant artifacts == Resolve(registry, d.artifactIds[..n])
      invariant reasons == ArtifactReasons(d, registry, n)
    {
      ArtifactReasonsStep(d, registry, n);
      var found := registry.GetById(d.artifactIds[n]);
      if found.None? {
        reasons := reasons + {ContentIdentityMismatch};
      } else {
        var artifact := found.value;
        artifacts := artifacts + [artifact];
        if artifact.contentHash != d.hashes[n] {
          reasons := reasons + {ContentIdentityMismatch};
        }
        if artifact.reviewState.Rejected? {
          reasons := reasons + {ArtifactRejected};
        } else if !artifact.reviewState.Reviewed? {
          reasons := reasons + {ArtifactUnreviewed};
        }
      }
    }
    assert d.artifactIds[..|d.artifactIds|] == d.artifactIds;
  }

  lemma SnocArtifact(artifacts: seq<Artifact>, a: Artifact, state: ReviewState)
    ensures SomeArtifact(artifacts + [a], state) <==> SomeArtifact(artifacts, state) || a.reviewState == state
  {
    assert (artifacts + [a])[|artifacts|] == a;
    assert forall i :: 0 <= i < |artifacts| ==> (artifacts + [a])[i] == artifacts[i];
  }

  method IndexClaims(artifacts: seq<Artifact>) returns (index: map<string, Claim>)
    ensures index == ClaimIndex(artifacts)
  {
    index := map[];
    for n := 0 to |artifacts|
      invariant index == ClaimIndex(artifacts[..n])
    {
      assert Init(artifacts[..n + 1]) == artifacts[..n];
      var claims := artifacts[n].claims;
      for m := 0 to |claims|
        invariant index == AddClaims(ClaimIndex(artifacts[..n]), claims[..m])
      {
        assert Init(claims[..m + 1]) == claims[..m];
        index := index[claims[m].claimId := claims[m]];
      }
      assert claims[..|claims|] == claims;
    }
    assert artifacts[..|artifacts|] == artifacts;
  }

  function ClaimFlags(d: ReviewDecision, c: Claim): set<ReviewReason> {
    Flag(c.reviewState.Rejected?, ClaimRejected) + Flag(c.reviewState.Unreviewed?, ClaimUnreviewed)
    + Flag(c.applicability != d.applicability, ForeignApplicability)
  }

  /** The tests on one selected claim. */
  method TestClaim(d: ReviewDecision, claim: Claim) returns (found: set<ReviewReason>)
    ensures found == ClaimFlags(d, claim)
  {
    found := {};
    if claim.reviewState.Rejected? {
      found := found + {ClaimRejected};
    } else if !claim.reviewState.Reviewed? {
      found := found + {ClaimUnreviewed};
    }
    if claim.applicability != d.applicability {
      found := found + {ForeignApplicability};
    }
  }

  lemma ClaimReasonsStep(d: ReviewDecision, index: map<string, Claim>, n: nat)
    requires n < |d.claimIds|
    ensures ClaimReasons(d, index, n + 1) == ClaimReasons(d, index, n) +
            if d.claimIds[n] !in index then {MissingRequiredClaim}
            else ClaimFlags(d, index[d.claimIds[n]])
    ensures Select(index, d.claimIds[..n + 1]) == Select(index, d.claimIds[..n]) +
            if d.claimIds[n] in index then [index[d.claimIds[n]]] else []
  {
    hide SomeClaim, SomeForeign;
    assert Init(d.claimIds[..n + 1]) == d.claimIds[..n];
    assert (exists i :: 0 <= i < n + 1 && d.claimIds[i] !in index) <==>
           (exists i :: 0 <= i < n && d.claimIds[i] !in index) || d.claimIds[n] !in index;
    if d.claimIds[n] in index {
      SnocClaim(Select(index, d.claimIds[..n]), index[d.claimIds[n]], d.applicability);
    }
  }

  method ScanClaims(d: ReviewDecision, index: map<string, Claim>) returns (claims: seq<Claim>, reasons: set<ReviewReason>)
    ensures claims == Select(index, d.claimIds)
    ensures reasons == ClaimReasons(d, index, |d.claimIds|)
  {
    claims, reasons := [], Flag(d.claimIds == [], MissingRequiredClaim);
    assert reasons == ClaimReasons(d, index, 0);
    assert claims == Select(index, d.claimIds[..0]);
    hide ClaimReasons, Select, ClaimFlags;
    for n := 0 to |d.claimIds|
      invariant claims == Select(index, d.claimIds[..n])
      invariant reasons == ClaimReasons(d, index, n)
    {
      ClaimReasonsStep(d, index, n);
      if d.claimIds[n] !in index {
        reasons := reasons + {MissingRequiredClaim};
      } else {
        var claim := index[d.claimIds[n]];
        claims := claims + [claim];
        var found := TestClaim(d, claim);
        reasons := reasons + found;
      }
    }
    assert d.claimIds[..|d.claimIds|] == d.claimIds;
  }

  lemma SnocClaim(claims: seq<Claim>, c: Claim, applicability: Applicability)
    ensures forall state :: SomeClaim(claims + [c], state) <==> SomeClaim(claims, state) || c.reviewState == state
    ensures SomeForeign(claims + [c], applicability) <==> SomeForeign(claims, applicability) || c.applicability != applicability
  {
    assert (claims + [c])[|claims|] == c;
    assert forall i :: 0 <= i < |claims| ==> (claims + [c])[i] == claims[i];
  }

  type Subject = (ClaimType, string, Applicability)

  function SubjectOf(c: Claim): Subject {
    (c.claimType, c.subject, c.applicability)
  }

  /** claims_by_subject: comparing each claim with the first of its subject finds every conflicting pair. */
  method FindConflict(claims: seq<Claim>) returns (conflict: bool)
    ensures conflict <==> Conflicting(claims)
  {
    conflict := false;
    var bySubject: map<Subject, string> := map[];
    for n := 0 to |claims|
      invariant conflict <==> Conflicting(claims[..n])
      invariant forall i :: 0 <= i < n ==> SubjectOf(claims[i]) in bySubject
      invariant forall s :: s in bySubject ==> exists i :: 0 <= i < n && SubjectOf(claims[i]) == s && claims[i].value == bySubject[s]
    {
      var claim := claims[n];
      var s := SubjectOf(claim);
      if s !in bySubject {
        bySubject := bySubject[s := claim.value];
        NoNewConflict(claims, n);
      } else {
        ghost var first :| 0 <= first < n && SubjectOf(claims[first]) == s && claims[first].value == bySubject[s];
        if bySubject[s] != claim.value {
          conflict := true;
          assert Contradict(claims[..n + 1][first], claims[..n + 1][n]);
        } else {
          SameAsFirst(claims, n, first);
        }
      }
      assert SubjectOf(claims[n]) == s;
    }
    assert claims[..|claims|] == claims;
  }

  lemma NoNewConflict(claims: seq<Claim>, n: nat)
    requires n < |claims| && forall i :: 0 <= i < n ==> !Contradict(claims[i], claims[n])
    ensures Conflicting(claims[..n + 1]) <==> Conflicting(claims[..n])
  {
    if Conflicting(claims[..n]) {
      var i, j :| 0 <= i < j < n && Contradict(claims[..n][i], claims[..n][j]);
      assert Contradict(claims[..n + 1][i], claims[..n + 1][j]);
    }
    if Conflicting(claims[..n + 1]) {
      var i, j :| 0 <= i < j < n + 1 && Contradict(claims[..n + 1][i], claims[..n + 1][j]);
      assert j < n;
      assert Contradict(claims[..n][i], claims[..n][j]);
    }
  }

  lemma SameAsFirst(claims: seq<Claim>, n: nat, first: nat)
    requires first < n < |claims| && SubjectOf(claims[first]) == SubjectOf(claims[n]) && claims[first].value == claims[n].value
    ensures Conflicting(claims[..n + 1]) <==> Conflicting(claims[..n])
  {
    if i :| 0 <= i < n && Contradict(claims[i], claims[n]) {
      var part, more := claims[..n], claims[..n + 1];
      assert Contradict(more[i], more[n]);
      if i < first {
        assert Contradict(part[i], part[first]);
      } else {
        assert Contradict(part[first], part[i]);
      }
    } else {
      NoNewConflict(claims, n);
    }
  }

  /** validate_deriv_evidence_review */
  method ValidateReview(d: ReviewDecision, registry: EvidenceRegistry, sha: Hasher) returns (valid: bool, observed: set<ReviewReason>)
    requires d.Valid() && registry.Valid()
    ensures observed == Observed(d, registry, sha) && valid == ReviewValid(d, registry, sha)
  {
    hide Resolve, ClaimIndex, Select, ArtifactReasons, ClaimReasons, Conflicting, ReviewDecision.Valid, EvidenceRegistry.Valid;
    assert |d.artifactIds| == |d.hashes| by {
      Aligned(d);
    }
    var artifacts, reasons := ScanArtifacts(d, registry);
    var index := IndexClaims(artifacts);
    var claims, more := ScanClaims(d, index);
    reasons := reasons + more;
    var conflict := FindConflict(claims);
    if conflict {
      reasons := reasons + {ConflictingClaim};
    }
    if !SemanticsBound(d.semantics, claims, sha) {
      reasons := reasons + {MissingRequiredClaim};
    }
    var structuralFailure := ContentIdentityMismatch in reasons;
    if reasons == {} {
      reasons := {EvidenceSetComplete};
    }
    observed := reasons;
    if structuralFailure || observed != d.reasonCodes {
      return false, observed;
    }
    match d.state
    case ApprovedForProofReview => valid := observed == {EvidenceSetComplete};
    case DecisionRejected =>
      valid := observed * {ArtifactRejected, ClaimRejected, ForeignApplicability, ConflictingClaim} != {};
    case DecisionInsufficient =>
      valid := observed * {ArtifactUnreviewed, ClaimUnreviewed, MissingRequiredClaim} != {};
  }

  lemma Aligned(d: ReviewDecision)
    requires d.Valid()
    ensures |d.artifactIds| == |d.hashes|
  {
  }

  // ---------------------------------------------------------------- what an approval guarantees

  /** Every identity resolves, under its stripped form, to a reviewed artifact with the listed hash. */
  ghost predicate ArtifactsReviewed(registry: EvidenceRegistry, ids: seq<string>, hashes: seq<string>) {
    && |ids| == |hashes|
    && forall i :: 0 <= i < |ids| ==> Backed(registry, ids[i], hashes[i])
  }

  ghost predicate Backed(registry: EvidenceRegistry, id: string, hash: string) {
    exists a :: Backs(registry, a, id, hash)
  }

  predicate Backs(registry: EvidenceRegistry, a: Artifact, id: string, hash: string) {
    a in registry.artifacts && a.artifactId == Strip(id) && a.contentHash == hash && a.reviewState.Reviewed?
  }

  /** The claims an evidence set selects from the registry. */
  function SelectedClaims(registry: EvidenceRegistry, artifactIds: seq<string>, claimIds: seq<string>): seq<Claim> {
    Select(ClaimIndex(Resolve(registry, artifactIds)), claimIds)
  }

  /** One reviewed claim of exactly this scope per identity, none contradicting another. */
  ghost predicate ClaimsReviewed(claims: seq<Claim>, ids: seq<string>, applicability: Applicability) {
    && |claims| == |ids|
    && (forall i :: 0 <= i < |ids| ==>
          claims[i].claimId == ids[i] && claims[i].reviewState.Reviewed? && claims[i].applicability == applicability)
    && (forall i, j :: 0 <= i < j < |claims| ==> !Contradict(claims[i], claims[j]))
  }

  ghost predicate EvidenceSound(registry: EvidenceRegistry, artifactIds: seq<string>, hashes: seq<string>, claimIds: seq<string>,
                                applicability: Applicability, semantics: Option<Semantics>, sha: Hasher) {
    var claims := SelectedClaims(registry, artifactIds, claimIds);
    && artifactIds != [] && claimIds != [] && ArtifactsReviewed(registry, artifactIds, hashes)
    && ClaimsReviewed(claims, claimIds, applicability)
    && (forall i :: 0 <= i < |claims| ==> exists a :: a in registry.artifacts && a.reviewState.Reviewed? && claims[i] in a.claims)
    && SemanticsBound(semantics, claims, sha)
  }

  lemma {:induction false} ResolveInRegistry(registry: EvidenceRegistry, ids: seq<string>)
    ensures forall a :: a in Resolve(registry, ids) ==> a in registry.artifacts
    ensures forall i :: 0 <= i < |ids| && registry.GetById(ids[i]).Some? ==> registry.GetById(ids[i]).value in Resolve(registry, ids)
  {
    hide EvidenceRegistry.GetById;
    if ids != [] {
      ResolveInRegistry(registry, Init(ids));
      forall i | 0 <= i < |ids| && registry.GetById(ids[i]).Some?
        ensures registry.GetById(ids[i]).value in Resolve(registry, ids)
      {
        if i < |ids| - 1 {
          assert Init(ids)[i] == ids[i];
        }
      }
    }
  }

  lemma {:induction false} AddClaimsKeyed(index: map<string, Claim>, claims: seq<Claim>, id: string)
    requires forall k :: k in index ==> index[k].claimId == k
    ensures forall k :: k in AddClaims(index, claims) ==> AddClaims(index, claims)[k].claimId == k
    ensures id in AddClaims(index, claims) ==>
              AddClaims(index, claims)[id] in claims || (id in index && AddClaims(index, claims)[id] == index[id])
  {
    if claims != [] {
      AddClaimsKeyed(index, Init(claims), id);
    }
  }

  lemma {:induction false} ClaimIndexKeyed(artifacts: seq<Artifact>, id: string)
    ensures forall k :: k in ClaimIndex(artifacts) ==> ClaimIndex(artifacts)[k].claimId == k
    ensures id in ClaimIndex(artifacts) ==> exists a :: a in artifacts && ClaimIndex(artifacts)[id] in a.claims
  {
    if artifacts != [] {
      ClaimIndexKeyed(Init(artifacts), id);
      AddClaimsKeyed(ClaimIndex(Init(artifacts)), Last(artifacts).claims, id);
      if id in ClaimIndex(artifacts) && ClaimIndex(artifacts)[id] in Last(artifacts).claims {
        assert Last(artifacts) in artifacts;
      }
    }
  }

  lemma {:induction false} SelectAligned(index: map<string, Claim>, ids: seq<string>)
    requires forall i :: 0 <= i < |ids| ==> ids[i] in index
    ensures |Select(index, ids)| == |ids|
    ensures forall i :: 0 <= i < |ids| ==> Select(index, ids)[i] == index[ids[i]]
  {
    if ids != [] {
      forall i | 0 <= i < |Init(ids)| ensures Init(ids)[i] in index {
        assert Init(ids)[i] == ids[i];
      }
      SelectAligned(index, Init(ids));
    }
  }

  lemma ProblemFree(d: ReviewDecision, registry: EvidenceRegistry, sha: Hasher)
    requires d.Valid() && d.state.ApprovedForProofReview? && ReviewValid(d, registry, sha)
    ensures Problems(d, registry, sha) == {}
  {
    NeverComplete(d, registry, sha);
    hide Problems;
  }

  lemma NeverComplete(d: ReviewDecision, registry: EvidenceRegistry, sha: Hasher)
    requires |d.artifactIds| == |d.hashes|
    ensures EvidenceSetComplete !in Problems(d, registry, sha)
  {
    hide Resolve, ClaimIndex, Select, Conflicting, SemanticsBound, Mismatched;
  }

  /** A valid approval stands only on reviewed, matching, non-contradictory evidence. */
  lemma ApprovalIsSound(d: ReviewDecision, registry: EvidenceRegistry, sha: Hasher)
    requires d.Valid() && registry.Valid() && d.state.ApprovedForProofReview? && ReviewValid(d, registry, sha)
    ensures EvidenceSound(registry, d.artifactIds, d.hashes, d.claimIds, d.applicability, d.semantics, sha)
  {
    ProblemFree(d, registry, sha);
    ArtifactsAreSound(d, registry, sha);
    ClaimsAreSound(d, registry, sha);
    hide *;
    EvidenceFromParts(d, registry, sha);
  }

  lemma EvidenceFromParts(d: ReviewDecision, registry: EvidenceRegistry, sha: Hasher)
    requires d.Valid() && d.state.ApprovedForProofReview?
    requires ArtifactsReviewed(registry, d.artifactIds, d.hashes)
    requires var claims := SelectedClaims(registry, d.artifactIds, d.claimIds);
             && ClaimsReviewed(claims, d.claimIds, d.applicability) && SemanticsBound(d.semantics, claims, sha)
             && forall i :: 0 <= i < |claims| ==> exists a :: a in registry.artifacts && a.reviewState.Reviewed? && claims[i] in a.claims
    ensures EvidenceSound(registry, d.artifactIds, d.hashes, d.claimIds, d.applicability, d.semantics, sha)
  {
  }

  /** Conversely, sound evidence is enough: an approval of it validates. */
  lemma SoundIsApprovable(d: ReviewDecision, registry: EvidenceRegistry, sha: Hasher)
    requires d.Valid() && registry.Valid() && d.state.ApprovedForProofReview?
    requires EvidenceSound(registry, d.artifactIds, d.hashes, d.claimIds, d.applicability, d.semantics, sha)
    ensures ReviewValid(d, registry, sha)
  {
    hide Resolve, ClaimIndex, Select, Conflicting, SemanticsBound, ArtifactReasons, ClaimReasons, EvidenceRegistry.Valid, ArtifactsReviewed, ClaimsReviewed;
    SoundArtifactsClear(d, registry);
    SoundClaimsClear(d, registry, sha);
    NoConflict(SelectedClaims(registry, d.artifactIds, d.claimIds), d.claimIds, d.applicability);
    assert Problems(d, registry, sha) == {};
  }

  lemma NoConflict(claims: seq<Claim>, ids: seq<string>, applicability: Applicability)
    requires ClaimsReviewed(claims, ids, applicability)
    ensures !Conflicting(claims)
  {
  }

  lemma UniqueById(registry: EvidenceRegistry, a: Artifact, b: Artifact)
    requires registry.Valid() && a in registry.artifacts && b in registry.artifacts && a.artifactId == b.artifactId
    ensures a == b
  {
    var i :| 0 <= i < |registry.artifacts| && registry.artifacts[i] == a;
    var j :| 0 <= j < |registry.artifacts| && registry.artifacts[j] == b;
    hide Artifact.Valid;
    assert i == j;
  }

  lemma {:induction false} ResolvedIsNamed(registry: EvidenceRegistry, ids: seq<string>, a: Artifact)
    requires a in Resolve(registry, ids)
    ensures exists i :: 0 <= i < |ids| && registry.GetById(ids[i]) == Some(a)
  {
    hide EvidenceRegistry.GetById;
    if registry.GetById(Last(ids)) == Some(a) {
      assert ids[|ids| - 1] == Last(ids);
    } else {
      ResolvedIsNamed(registry, Init(ids), a);
      var i :| 0 <= i < |Init(ids)| && registry.GetById(Init(ids)[i]) == Some(a);
      assert registry.GetById(ids[i]) == Some(a);
    }
  }

  lemma SoundArtifactsClear(d: ReviewDecision, registry: EvidenceRegistry)
    requires registry.Valid() && d.artifactIds != [] && ArtifactsReviewed(registry, d.artifactIds, d.hashes)
    ensures ArtifactReasons(d, registry, |d.artifactIds|) == {}
  {
    hide EvidenceRegistry.Valid, Resolve;
    assert d.artifactIds[..|d.artifactIds|] == d.artifactIds;
    var all := Resolve(registry, d.artifactIds);
    forall i | 0 <= i < |d.artifactIds|
      ensures !Mismatched(registry, d.artifactIds[i], d.hashes[i])
      ensures registry.GetById(d.artifactIds[i]).Some? && registry.GetById(d.artifactIds[i]).value.reviewState.Reviewed?
    {
      assert Backed(registry, d.artifactIds[i], d.hashes[i]);
      var a :| Backs(registry, a, d.artifactIds[i], d.hashes[i]);
      UniqueById(registry, a, registry.GetById(d.artifactIds[i]).value);
    }
    hide EvidenceRegistry.GetById;
    forall k | 0 <= k < |all| ensures all[k].reviewState.Reviewed? {
      ResolvedIsNamed(registry, d.artifactIds, all[k]);
    }
  }

  lemma SoundClaimsClear(d: ReviewDecision, registry: EvidenceRegistry, sha: Hasher)
    requires d.claimIds != [] && ClaimsReviewed(SelectedClaims(registry, d.artifactIds, d.claimIds), d.claimIds, d.applicability)
    ensures ClaimReasons(d, ClaimIndex(Resolve(registry, d.artifactIds)), |d.claimIds|) == {}
  {
    hide Resolve, ClaimIndex, Select;
    var index := ClaimIndex(Resolve(registry, d.artifactIds));
    assert d.claimIds[..|d.claimIds|] == d.claimIds;
    SelectFull(index, d.claimIds);
  }

  /** Selection keeps its length only if nothing was missing. */
  lemma {:induction false} SelectFull(index: map<string, Claim>, ids: seq<string>)
    ensures |Select(index, ids)| <= |ids|
    ensures |Select(index, ids)| == |ids| ==> forall i :: 0 <= i < |ids| ==> ids[i] in index
  {
    if ids != [] {
      SelectFull(index, Init(ids));
      if |Select(index, ids)| == |ids| {
        forall i | 0 <= i < |ids| ensures ids[i] in index {
          if i < |ids| - 1 {
            assert Init(ids)[i] == ids[i];
          }
        }
      }
    }
  }

  lemma ArtifactsAreSound(d: ReviewDecision, registry: EvidenceRegistry, sha: Hasher)
    requires |d.artifactIds| == |d.hashes| && Problems(d, registry, sha) == {}
    ensures ArtifactsReviewed(registry, d.artifactIds, d.hashes)
    ensures forall a :: a in Resolve(registry, d.artifactIds) ==> a in registry.artifacts && a.reviewState.Reviewed?
  {
    var all := Resolve(registry, d.artifactIds);
    assert d.artifactIds[..|d.artifactIds|] == d.artifactIds;
    assert ContentIdentityMismatch !in Problems(d, registry, sha) && ArtifactRejected !in Problems(d, registry, sha)
        && ArtifactUnreviewed !in Problems(d, registry, sha);
    assert ArtifactReasons(d, registry, |d.artifactIds|) == {};
    hide Problems, Resolve, Conflicting, SemanticsBound, ClaimReasons, EvidenceRegistry.Find;
    ResolveInRegistry(registry, d.artifactIds);
    assert !SomeArtifact(all, Rejected) && !SomeArtifact(all, Unreviewed);
    forall i | 0 <= i < |d.artifactIds|
      ensures Backed(registry, d.artifactIds[i], d.hashes[i])
    {
      assert !Mismatched(registry, d.artifactIds[i], d.hashes[i]);
      var a := registry.GetById(d.artifactIds[i]).value;
      assert a in all;
      assert Backs(registry, a, d.artifactIds[i], d.hashes[i]);
    }
  }

  lemma ClaimsAreSound(d: ReviewDecision, registry: EvidenceRegistry, sha: Hasher)
    requires |d.artifactIds| == |d.hashes| && Problems(d, registry, sha) == {}
    ensures var claims := SelectedClaims(registry, d.artifactIds, d.claimIds);
            && ClaimsReviewed(claims, d.claimIds, d.applicability) && SemanticsBound(d.semantics, claims, sha)
            && forall i :: 0 <= i < |claims| ==> exists a :: a in registry.artifacts && a.reviewState.Reviewed? && claims[i] in a.claims
  {
    ArtifactsAreSound(d, registry, sha);
    var artifacts := Resolve(registry, d.artifactIds);
    var index := ClaimIndex(artifacts);
    var claims := Select(index, d.claimIds);
    assert d.claimIds[..|d.claimIds|] == d.claimIds;
    assert ClaimReasons(d, index, |d.claimIds|) == {} && !Conflicting(claims) && SemanticsBound(d.semantics, claims, sha) by {
      hide Resolve, ClaimIndex, Select, Conflicting, SemanticsBound, ArtifactReasons, ClaimReasons, ArtifactsReviewed;
      var p := Problems(d, registry, sha);
      assert ClaimReasons(d, index, |d.claimIds|) <= p;
      assert ConflictingClaim !in p && MissingRequiredClaim !in p;
    }
    hide Problems, Resolve, ClaimIndex, Select, SemanticsBound, ArtifactReasons, ArtifactsReviewed;
    assert MissingRequiredClaim !in ClaimReasons(d, index, |d.claimIds|);
    SelectAligned(index, d.claimIds);
    assert !SomeClaim(claims, Rejected) && !SomeClaim(claims, Unreviewed) && !SomeForeign(claims, d.applicability);
    forall i | 0 <= i < |d.claimIds|
      ensures claims[i].claimId == d.claimIds[i]
      ensures exists a :: a in registry.artifacts && a.reviewState.Reviewed? && claims[i] in a.claims
    {
      ClaimIndexKeyed(artifacts, d.claimIds[i]);
    }
  }
}
