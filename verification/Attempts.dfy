/** Which requests can be admitted at all: the whole chain read backwards, from a request to evidence for it. */
module Attempts {
  import opened Prelude
  import opened Texts
  import opened Evidence
  import opened EvidenceReview
  import opened EvidenceSoundness
  import opened ProofReview
  import opened Registration
  import opened Registry

  // ---------------------------------------------------------------- texts

  lemma {:induction false} StripRightKeepsFirst(s: string)
    requires s != "" && !IsSpace(s[0])
    ensures StripRight(s) != "" && StripRight(s)[0] == s[0]
  {
    if IsSpace(Last(s)) {
      StripRightKeepsFirst(Init(s));
    }
  }

  lemma SolidIsNonBlank(s: string)
    requires s != "" && !IsSpace(s[0])
    ensures NonBlank(s)
  {
    StripRightKeepsFirst(s);
  }

  lemma LetterIsSolid(c: char)
    requires 'A' <= c <= 'Z'
    ensures NonBlank([c]) && Strip([c]) == [c]
  {
    assert !IsSpace(c);
  }

  lemma {:induction false} StripLeftIsSolid(s: string)
    ensures StripLeft(s) == "" || !IsSpace(StripLeft(s)[0])
  {
    if s != "" && IsSpace(s[0]) {
      StripLeftIsSolid(s[1..]);
    }
  }

  /** A stripped text that is not empty is not blank. */
  lemma StrippedIsNonBlank(s: string)
    requires NonBlank(s)
    ensures NonBlank(Strip(s))
  {
    StripLeftIsSolid(s);
    assert StripLeft(s) != "";
    StripRightKeepsFirst(StripLeft(s));
    SolidIsNonBlank(Strip(s));
  }

  lemma HashIsNonBlank(s: string)
    requires IsHash(s)
    ensures NonBlank(s)
  {
    assert s[0] == s[..7][0] == 's';
    SolidIsNonBlank(s);
  }

  // ---------------------------------------------------------------- an attempt for a request, on given evidence

  function AttemptOn(request: Request, evidence: EvidenceRegistry): Attempt {
    var l := request.lineage;
    Attempt(request, COMPLETE, Candidate(1, l), Verification(1, request.verificationId, l, Verified, "W", 0, None),
            Assessment(1, l.assessmentId, l.decisionId, l.artifactIds, l.hashes, l.claimIds, ReadyForProofReview,
                       {PackageConsistent}, "R", 0, l.applicability, None, l.semantics),
            ReviewDecision(1, l.decisionId, l.artifactIds, l.hashes, l.claimIds, ApprovedForProofReview,
                           {EvidenceSetComplete}, "R", 0, l.applicability, None, l.semantics),
            evidence, [])
  }

  lemma ReviewOnValid(request: Request, evidence: EvidenceRegistry)
    requires request.Valid()
    ensures AttemptOn(request, evidence).assessment.Valid() && AttemptOn(request, evidence).decision.Valid()
  {
    LetterIsSolid('R');
    hide NonBlank, IsHash, Semantics.Valid, Applicability.Valid, EvidenceTuples;
  }

  lemma AttemptOnValid(request: Request, evidence: EvidenceRegistry, sha: Hasher)
    requires request.Valid() && request.lineage.Bound(sha) && evidence.Valid()
    ensures AttemptOn(request, evidence).Valid(sha)
  {
    LetterIsSolid('W');
    ReviewOnValid(request, evidence);
    hide NonBlank, Lineage.Valid, Lineage.Bound, EvidenceRegistry.Valid, Assessment.Valid, ReviewDecision.Valid;
  }

  lemma AttemptOnSound(request: Request, evidence: EvidenceRegistry, sha: Hasher)
    requires SoundBy(evidence, EvidenceOf(request.lineage), sha)
    ensures Sound(AttemptOn(request, evidence), sha)
  {
    hide EvidenceSound;
  }

  // ---------------------------------------------------------------- when evidence can exist

  /** Identities and hashes name the same artifacts: two identities strip alike exactly when their hashes are equal. */
  predicate NamesAgree(ids: seq<string>, hashes: seq<string>) {
    && |ids| == |hashes|
    && forall i, j :: 0 <= i < |ids| && 0 <= j < |ids| ==> (Strip(ids[i]) == Strip(ids[j]) <==> hashes[i] == hashes[j])
  }

  lemma UniqueByHash(registry: EvidenceRegistry, a: Artifact, b: Artifact)
    requires registry.Valid() && a in registry.artifacts && b in registry.artifacts && a.contentHash == b.contentHash
    ensures a == b
  {
    var i :| 0 <= i < |registry.artifacts| && registry.artifacts[i] == a;
    var j :| 0 <= j < |registry.artifacts| && registry.artifacts[j] == b;
    hide Artifact.Valid;
    assert i == j;
  }

  /** Reviewed artifacts under the listed identities and hashes force the names to agree. */
  lemma ReviewedNamesAgree(registry: EvidenceRegistry, ids: seq<string>, hashes: seq<string>)
    requires registry.Valid() && ArtifactsReviewed(registry, ids, hashes)
    ensures NamesAgree(ids, hashes)
  {
    hide EvidenceRegistry.Valid, Strip;
    forall i, j | 0 <= i < |ids| && 0 <= j < |ids| ensures Strip(ids[i]) == Strip(ids[j]) <==> hashes[i] == hashes[j] {
      assert Backed(registry, ids[i], hashes[i]) && Backed(registry, ids[j], hashes[j]);
      var a :| Backs(registry, a, ids[i], hashes[i]);
      var b :| Backs(registry, b, ids[j], hashes[j]);
      if Strip(ids[i]) == Strip(ids[j]) {
        UniqueById(registry, a, b);
      }
      if hashes[i] == hashes[j] {
        UniqueByHash(registry, a, b);
      }
    }
  }

  // ---------------------------------------------------------------- evidence for a lineage whose names agree

  function ClaimFor(l: Lineage, id: string): Claim
    requires l.artifactIds != []
  {
    Claim(id, Strip(l.artifactIds[0]), LossModelDescriptionIdentity, "L", l.materialHash, l.applicability, Reviewed)
  }

  function ClaimsFor(l: Lineage): (claims: seq<Claim>)
    requires l.artifactIds != []
    ensures |claims| == |l.claimIds|
  {
    seq(|l.claimIds|, j requires 0 <= j < |l.claimIds| => ClaimFor(l, l.claimIds[j]))
  }

  /** The artifact of the i-th identity; the first carries every claim. */
  function ArtifactFor(l: Lineage, i: nat): Artifact
    requires i < |l.artifactIds| == |l.hashes|
  {
    Artifact(1, Strip(l.artifactIds[i]), "S", "T", "P", 0, l.hashes[i], if i == 0 then ClaimsFor(l) else [], Reviewed, None)
  }

  predicate Named(l: Lineage, n: nat, name: string)
    requires n <= |l.artifactIds|
  {
    exists i :: 0 <= i < n && Strip(l.artifactIds[i]) == name
  }

  /** One artifact for each name among the first n identities. */
  function ArtifactsFor(l: Lineage, n: nat): seq<Artifact>
    requires n <= |l.artifactIds| == |l.hashes|
  {
    if n == 0 then []
    else if Named(l, n - 1, Strip(l.artifactIds[n - 1])) then ArtifactsFor(l, n - 1)
    else ArtifactsFor(l, n - 1) + [ArtifactFor(l, n - 1)]
  }

  ghost predicate IsArtifactFor(l: Lineage, n: nat, a: Artifact)
    requires n <= |l.artifactIds| == |l.hashes|
  {
    exists i :: 0 <= i < n && a == ArtifactFor(l, i)
  }

  lemma {:induction false} ArtifactsForAre(l: Lineage, n: nat)
    requires n <= |l.artifactIds| == |l.hashes|
    ensures forall a :: a in ArtifactsFor(l, n) ==> IsArtifactFor(l, n, a)
    ensures forall j, k :: 0 <= j < k < |ArtifactsFor(l, n)| ==> ArtifactsFor(l, n)[j].artifactId != ArtifactsFor(l, n)[k].artifactId
  {
    hide Strip;
    if n > 0 {
      ArtifactsForAre(l, n - 1);
      var less, more := ArtifactsFor(l, n - 1), ArtifactsFor(l, n);
      forall a | a in more ensures IsArtifactFor(l, n, a) {
        if a in less {
          var i :| 0 <= i < n - 1 && a == ArtifactFor(l, i);
        } else {
          assert a == ArtifactFor(l, n - 1);
        }
      }
      forall j | 0 <= j < |less| ensures Named(l, n - 1, less[j].artifactId) {
        assert less[j] in less;
        var i :| 0 <= i < n - 1 && less[j] == ArtifactFor(l, i);
      }
    }
  }

  /** Every identity's name has its artifact, and the first artifact is the one with the claims. */
  lemma {:induction false} ArtifactsForCover(l: Lineage, n: nat, i: nat)
    requires i < n <= |l.artifactIds| == |l.hashes|
    ensures exists a :: a in ArtifactsFor(l, n) && a.artifactId == Strip(l.artifactIds[i])
    ensures ArtifactFor(l, 0) in ArtifactsFor(l, n)
  {
    hide Strip;
    if i < n - 1 {
      ArtifactsForCover(l, n - 1, i);
    } else if Named(l, n - 1, Strip(l.artifactIds[n - 1])) {
      var k :| 0 <= k < n - 1 && Strip(l.artifactIds[k]) == Strip(l.artifactIds[n - 1]);
      ArtifactsForCover(l, n - 1, k);
    } else {
      if n > 1 {
        ArtifactsForCover(l, n - 1, 0);
      }
      assert ArtifactFor(l, n - 1) in ArtifactsFor(l, n);
    }
  }

  function EvidenceFor(l: Lineage): EvidenceRegistry
    requires |l.artifactIds| == |l.hashes|
  {
    EvidenceRegistry(ArtifactsFor(l, |l.artifactIds|))
  }

  lemma ClaimForValid(l: Lineage, j: nat)
    requires l.Valid() && j < |l.claimIds|
    ensures ClaimFor(l, l.claimIds[j]).Valid()
  {
    LetterIsSolid('L');
    HashIsNonBlank(l.materialHash);
    assert NonBlank(l.claimIds[j]) && NonBlank(l.artifactIds[0]);
    StrippedIsNonBlank(l.artifactIds[0]);
    hide NonBlank, IsHash, Strip, Semantics.Valid, RequiredText, OptionalText, Distinct;
  }

  lemma ArtifactForValid(l: Lineage, i: nat)
    requires l.Valid() && i < |l.artifactIds|
    ensures |l.artifactIds| == |l.hashes| && ArtifactFor(l, i).Valid()
  {
    hide NonBlank, IsHash, Strip, Lineage.Valid, Claim.Valid;
    LetterIsSolid('S');
    LetterIsSolid('T');
    LetterIsSolid('P');
    LineageTuples(l);
    LineageNames(l, i);
    StrippedIsNonBlank(l.artifactIds[i]);
    forall j | 0 <= j < |l.claimIds| ensures ClaimFor(l, l.claimIds[j]).Valid() {
      ClaimForValid(l, j);
    }
  }

  lemma LineageNames(l: Lineage, i: nat)
    requires l.Valid() && i < |l.artifactIds|
    ensures |l.artifactIds| == |l.hashes| && NonBlank(l.artifactIds[i]) && IsHash(l.hashes[i]) && Distinct(l.claimIds)
  {
    hide NonBlank, IsHash, Semantics.Valid, Applicability.Complete;
  }

  lemma LineageTuples(l: Lineage)
    requires l.Valid()
    ensures |l.artifactIds| == |l.hashes| && l.artifactIds != [] && l.claimIds != []
  {
  }

  lemma EvidenceForValid(l: Lineage)
    requires l.Valid() && NamesAgree(l.artifactIds, l.hashes)
    ensures EvidenceFor(l).Valid()
  {
    hide Lineage.Valid, Artifact.Valid, Strip, ArtifactsFor;
    var n, artifacts := |l.artifactIds|, EvidenceFor(l).artifacts;
    ArtifactsForAre(l, n);
    forall k | 0 <= k < |artifacts| ensures artifacts[k].Valid() {
      assert artifacts[k] in artifacts;
      var i :| 0 <= i < n && artifacts[k] == ArtifactFor(l, i);
      ArtifactForValid(l, i);
    }
    forall j, k | 0 <= j < k < |artifacts| ensures artifacts[j].contentHash != artifacts[k].contentHash {
      assert artifacts[j] in artifacts && artifacts[k] in artifacts;
      var a :| 0 <= a < n && artifacts[j] == ArtifactFor(l, a);
      var b :| 0 <= b < n && artifacts[k] == ArtifactFor(l, b);
    }
  }

  lemma EvidenceForReviewed(l: Lineage)
    requires NamesAgree(l.artifactIds, l.hashes)
    ensures ArtifactsReviewed(EvidenceFor(l), l.artifactIds, l.hashes)
  {
    hide Strip, ArtifactsFor;
    var n, registry := |l.artifactIds|, EvidenceFor(l);
    ArtifactsForAre(l, n);
    forall i | 0 <= i < n ensures Backed(registry, l.artifactIds[i], l.hashes[i]) {
      ArtifactsForCover(l, n, i);
      var a :| a in ArtifactsFor(l, n) && a.artifactId == Strip(l.artifactIds[i]);
      var k :| 0 <= k < n && a == ArtifactFor(l, k);
      assert Backs(registry, a, l.artifactIds[i], l.hashes[i]);
    }
  }

  /** A citation of this evidence is one of the first artifact's claims. */
  lemma CitedFor(l: Lineage, a: Artifact, c: Claim)
    requires |l.artifactIds| == |l.hashes| && Cited(EvidenceFor(l), EvidenceOf(l), a, c)
    ensures l.artifactIds != [] && a == ArtifactFor(l, 0) && c == ClaimFor(l, c.claimId)
  {
    hide Strip, ArtifactsFor;
    ArtifactsForAre(l, |l.artifactIds|);
    var i :| 0 <= i < |l.artifactIds| && a == ArtifactFor(l, i);
    var j :| 0 <= j < |a.claims| && a.claims[j] == c;
  }

  lemma ClaimIsCited(l: Lineage, j: nat)
    requires |l.artifactIds| == |l.hashes| && l.artifactIds != [] && j < |l.claimIds|
    ensures Cited(EvidenceFor(l), EvidenceOf(l), ArtifactFor(l, 0), ClaimFor(l, l.claimIds[j]))
  {
    hide Strip, ArtifactsFor;
    ArtifactsForCover(l, |l.artifactIds|, 0);
    assert ClaimsFor(l)[j] == ClaimFor(l, l.claimIds[j]);
    assert ArtifactFor(l, 0).artifactId == Strip(l.artifactIds[0]);
  }

  lemma EvidenceForFullySound(l: Lineage, sha: Hasher)
    requires l.Valid() && l.Bound(sha) && NamesAgree(l.artifactIds, l.hashes)
    ensures Unshadowed(EvidenceFor(l), EvidenceOf(l)) && FullySound(EvidenceFor(l), EvidenceOf(l), sha)
  {
    hide Lineage.Valid, Strip;
    LineageTuples(l);
    EvidenceForReviewed(l);
    hide Cited, EvidenceFor, ArtifactsReviewed, NamesAgree, ArtifactFor;
    var registry, listing := EvidenceFor(l), EvidenceOf(l);
    forall id | id in listing.claimIds ensures exists a, c :: Cited(registry, listing, a, c) && c.claimId == id {
      var j :| 0 <= j < |l.claimIds| && l.claimIds[j] == id;
      ClaimIsCited(l, j);
    }
    forall a, c | Cited(registry, listing, a, c)
      ensures a == ArtifactFor(l, 0) && c == ClaimFor(l, c.claimId)
    {
      CitedFor(l, a, c);
    }
    if l.semantics.Some? {
      ClaimIsCited(l, 0);
      assert Declares(ClaimFor(l, l.claimIds[0]), l.semantics.value, sha);
    }
  }

  // ---------------------------------------------------------------- exactly which requests can be admitted

  /** Semantics bound to the loss model and the material hash, and artifact names that agree with their hashes. */
  predicate Admissible(request: Request, sha: Hasher) {
    request.lineage.Bound(sha) && NamesAgree(request.lineage.artifactIds, request.lineage.hashes)
  }

  /** The attempt asks for this request and is sound. */
  ghost predicate Backing(x: Attempt, request: Request, sha: Hasher) {
    x.Valid(sha) && x.request == request && Sound(x, sha)
  }

  lemma AdmissibleHasAttempt(request: Request, sha: Hasher)
    requires request.Valid() && Admissible(request, sha)
    ensures Backing(AttemptOn(request, EvidenceFor(request.lineage)), request, sha)
  {
    hide Lineage.Valid, EvidenceRegistry.Valid, Sound, Attempt.Valid, EvidenceFor, NamesAgree, FullySound, Unshadowed, Lineage.Bound, SoundBy;
    LineageTuples(request.lineage);
    EvidenceForValid(request.lineage);
    EvidenceForFullySound(request.lineage, sha);
    SoundIffFullySound(EvidenceFor(request.lineage), EvidenceOf(request.lineage), sha);
    AttemptOnValid(request, EvidenceFor(request.lineage), sha);
    AttemptOnSound(request, EvidenceFor(request.lineage), sha);
  }

  lemma AttemptIsAdmissible(x: Attempt, sha: Hasher)
    requires x.Valid(sha) && Sound(x, sha)
    ensures Admissible(x.request, sha)
  {
    var l := x.request.lineage;
    assert ArtifactsReviewed(x.evidence, l.artifactIds, l.hashes) && l.Bound(sha) && x.evidence.Valid() by {
      hide Request.Valid, Assessment.Valid, ReviewDecision.Valid, Lineage.Valid, EvidenceRegistry.Valid, SelectedClaims, ClaimsReviewed, SemanticsBound, Unrevoked;
    }
    ReviewedNamesAgree(x.evidence, l.artifactIds, l.hashes);
  }

  /** A valid request has a sound attempt behind it, on some evidence, exactly when it is admissible. */
  lemma AdmissibleIff(request: Request, sha: Hasher)
    requires request.Valid()
    ensures (exists x :: Backing(x, request, sha)) <==> Admissible(request, sha)
  {
    hide Request.Valid, Admissible, Attempt.Valid, Sound;
    if x :| Backing(x, request, sha) {
      AttemptIsAdmissible(x, sha);
    }
    if Admissible(request, sha) {
      AdmissibleHasAttempt(request, sha);
    }
  }
}
