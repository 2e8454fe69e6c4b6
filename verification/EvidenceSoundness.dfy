/**
  What an approval says about the evidence itself: not only about the claim that wins an identity in
  the validator's dictionary, but about every claim of a listed artifact that carries a listed identity.
*/
module EvidenceSoundness {
  import opened Prelude
  import opened Texts
  import opened Evidence
  import opened EvidenceReview

  /** What is listed: artifact identities with their hashes, claim identities, scope and semantics. */
  datatype Listing = Listing(artifactIds: seq<string>, hashes: seq<string>, claimIds: seq<string>,
                             applicability: Applicability, semantics: Option<Semantics>)

  ghost predicate SoundBy(registry: EvidenceRegistry, l: Listing, sha: Hasher) {
    EvidenceSound(registry, l.artifactIds, l.hashes, l.claimIds, l.applicability, l.semantics, sha)
  }

  predicate Listed(registry: EvidenceRegistry, ids: seq<string>, a: Artifact) {
    a in registry.artifacts && exists i :: 0 <= i < |ids| && a.artifactId == Strip(ids[i])
  }

  /** The claim stands in a listed artifact and carries a listed identity. */
  predicate Cited(registry: EvidenceRegistry, l: Listing, a: Artifact, c: Claim) {
    Listed(registry, l.artifactIds, a) && c in a.claims && c.claimId in l.claimIds
  }

  predicate InScope(c: Claim, applicability: Applicability) {
    c.reviewState.Reviewed? && c.applicability == applicability
  }

  predicate Declares(c: Claim, semantics: Semantics, sha: Hasher) {
    c.claimType.LossModelDescriptionIdentity? && c.value == sha(semantics)
  }

  /**
    Every listed artifact is reviewed under its hash, every listed claim identity is cited, and every
    cited claim is reviewed, of exactly the scope, and contradicts no other; some cited claim declares
    the semantics.
  */
  ghost predicate FullySound(registry: EvidenceRegistry, l: Listing, sha: Hasher) {
    && l.artifactIds != [] && l.claimIds != [] && ArtifactsReviewed(registry, l.artifactIds, l.hashes)
    && (forall id :: id in l.claimIds ==> exists a, c :: Cited(registry, l, a, c) && c.claimId == id)
    && (forall a, c :: Cited(registry, l, a, c) ==> InScope(c, l.applicability))
    && (forall a, c, b, d :: Cited(registry, l, a, c) && Cited(registry, l, b, d) ==> !Contradict(c, d))
    && (l.semantics.Some? ==> exists a, c :: Cited(registry, l, a, c) && Declares(c, l.semantics.value, sha))
  }

  /** No listed claim identity is carried by two listed artifacts. */
  ghost predicate Unshadowed(registry: EvidenceRegistry, l: Listing) {
    forall a, c, b, d :: Cited(registry, l, a, c) && Cited(registry, l, b, d) && c.claimId == d.claimId ==> a == b
  }

  // ---------------------------------------------------------------- the dictionary of claims

  function FindClaim(claims: seq<Claim>, id: string): (r: Option<Claim>)
    ensures r.Some? ==> r.value in claims && r.value.claimId == id
    ensures r.None? ==> forall c :: c in claims ==> c.claimId != id
  {
    if claims == [] then None
    else if Last(claims).claimId == id then Some(Last(claims))
    else
      assert claims == Init(claims) + [Last(claims)];
      FindClaim(Init(claims), id)
  }

  /** The last artifact that carries the identity. */
  function Carrier(artifacts: seq<Artifact>, id: string): (r: Option<Artifact>)
    ensures r.Some? ==> r.value in artifacts && FindClaim(r.value.claims, id).Some?
    ensures r.None? ==> forall a :: a in artifacts ==> FindClaim(a.claims, id).None?
  {
    if artifacts == [] then None
    else if FindClaim(Last(artifacts).claims, id).Some? then Some(Last(artifacts))
    else
      assert artifacts == Init(artifacts) + [Last(artifacts)];
      Carrier(Init(artifacts), id)
  }

  function Winner(artifacts: seq<Artifact>, id: string): Option<Claim> {
    match Carrier(artifacts, id)
    case None => None
    case Some(a) => FindClaim(a.claims, id)
  }

  lemma {:induction false} AddClaimsAt(index: map<string, Claim>, claims: seq<Claim>, id: string)
    ensures var more := AddClaims(index, claims);
            && (id in more <==> FindClaim(claims, id).Some? || id in index)
            && (id in more ==> more[id] == if FindClaim(claims, id).Some? then FindClaim(claims, id).value else index[id])
  {
    if claims != [] {
      AddClaimsAt(index, Init(claims), id);
    }
  }

  /** The dictionary holds, for each identity, the claim of the last artifact that carries it. */
  lemma {:induction false} IndexAt(artifacts: seq<Artifact>, id: string)
    ensures id in ClaimIndex(artifacts) <==> Winner(artifacts, id).Some?
    ensures id in ClaimIndex(artifacts) ==> ClaimIndex(artifacts)[id] == Winner(artifacts, id).value
  {
    if artifacts != [] {
      IndexAt(Init(artifacts), id);
      AddClaimsAt(ClaimIndex(Init(artifacts)), Last(artifacts).claims, id);
    }
  }

  /** Resolving the listed identities gives exactly the listed artifacts. */
  lemma ResolvedIffListed(registry: EvidenceRegistry, ids: seq<string>, a: Artifact)
    requires registry.Valid()
    ensures a in Resolve(registry, ids) <==> Listed(registry, ids, a)
  {
    hide EvidenceRegistry.Valid, Resolve, Strip;
    ResolveInRegistry(registry, ids);
    if a in Resolve(registry, ids) {
      ResolvedIsNamed(registry, ids, a);
    }
    if Listed(registry, ids, a) {
      var i :| 0 <= i < |ids| && a.artifactId == Strip(ids[i]);
      UniqueById(registry, a, registry.GetById(ids[i]).value);
    }
  }

  lemma ListedIsReviewed(registry: EvidenceRegistry, ids: seq<string>, hashes: seq<string>, a: Artifact)
    requires registry.Valid() && ArtifactsReviewed(registry, ids, hashes) && Listed(registry, ids, a)
    ensures a.reviewState.Reviewed?
  {
    hide EvidenceRegistry.Valid, Strip;
    var i :| 0 <= i < |ids| && a.artifactId == Strip(ids[i]);
    assert Backed(registry, ids[i], hashes[i]);
    var b :| Backs(registry, b, ids[i], hashes[i]);
    UniqueById(registry, a, b);
  }

  /** Within one artifact an identity names one claim. */
  lemma OneClaimEach(registry: EvidenceRegistry, a: Artifact, c: Claim, d: Claim)
    requires registry.Valid() && a in registry.artifacts && c in a.claims && d in a.claims && c.claimId == d.claimId
    ensures c == d
  {
    var k :| 0 <= k < |registry.artifacts| && registry.artifacts[k] == a;
    assert a.Valid();
    var i :| 0 <= i < |a.claims| && a.claims[i] == c;
    var j :| 0 <= j < |a.claims| && a.claims[j] == d;
    hide Claim.Valid, IsHash, NonBlank;
    assert i == j;
  }

  /** The winner of a listed identity is cited. */
  lemma WinnerIsCited(registry: EvidenceRegistry, l: Listing, id: string) returns (a: Artifact)
    requires registry.Valid() && id in l.claimIds && id in ClaimIndex(Resolve(registry, l.artifactIds))
    ensures Cited(registry, l, a, ClaimIndex(Resolve(registry, l.artifactIds))[id])
    ensures ClaimIndex(Resolve(registry, l.artifactIds))[id].claimId == id
  {
    hide EvidenceRegistry.Valid, Resolve, Listed, ClaimIndex;
    var artifacts := Resolve(registry, l.artifactIds);
    IndexAt(artifacts, id);
    a := Carrier(artifacts, id).value;
    ResolvedIffListed(registry, l.artifactIds, a);
  }

  /** A cited identity is in the dictionary. */
  lemma CitedIsIndexed(registry: EvidenceRegistry, l: Listing, a: Artifact, c: Claim)
    requires registry.Valid() && Cited(registry, l, a, c)
    ensures c.claimId in ClaimIndex(Resolve(registry, l.artifactIds))
  {
    hide EvidenceRegistry.Valid, Resolve, Listed, ClaimIndex;
    ResolvedIffListed(registry, l.artifactIds, a);
    IndexAt(Resolve(registry, l.artifactIds), c.claimId);
  }

  /** Unshadowed, the winner is the only cited claim of its identity. */
  lemma CitedIsWinner(registry: EvidenceRegistry, l: Listing, a: Artifact, c: Claim)
    requires registry.Valid() && Unshadowed(registry, l) && Cited(registry, l, a, c)
    ensures c.claimId in ClaimIndex(Resolve(registry, l.artifactIds))
    ensures ClaimIndex(Resolve(registry, l.artifactIds))[c.claimId] == c
  {
    hide EvidenceRegistry.Valid, Resolve, Listed, ClaimIndex;
    CitedIsIndexed(registry, l, a, c);
    var b := WinnerIsCited(registry, l, c.claimId);
    assert a == b;
    assert a in registry.artifacts by { ListedIsRegistered(registry, l.artifactIds, a); }
    OneClaimEach(registry, a, c, ClaimIndex(Resolve(registry, l.artifactIds))[c.claimId]);
  }

  lemma ListedIsRegistered(registry: EvidenceRegistry, ids: seq<string>, a: Artifact)
    requires Listed(registry, ids, a)
    ensures a in registry.artifacts
  {
  }

  // ---------------------------------------------------------------- unshadowed evidence

  function Selected(registry: EvidenceRegistry, l: Listing): seq<Claim> {
    SelectedClaims(registry, l.artifactIds, l.claimIds)
  }

  /** Sound selections: every listed identity is in the dictionary and its winner is what was selected. */
  lemma SelectedAt(registry: EvidenceRegistry, l: Listing, i: nat)
    requires i < |l.claimIds| && |Selected(registry, l)| == |l.claimIds|
    ensures l.claimIds[i] in ClaimIndex(Resolve(registry, l.artifactIds))
    ensures Selected(registry, l)[i] == ClaimIndex(Resolve(registry, l.artifactIds))[l.claimIds[i]]
  {
    var index := ClaimIndex(Resolve(registry, l.artifactIds));
    SelectFull(index, l.claimIds);
    SelectAligned(index, l.claimIds);
  }

  /** The position at which a cited claim was selected. */
  lemma CitedIsSelected(registry: EvidenceRegistry, l: Listing, a: Artifact, c: Claim) returns (i: nat)
    requires registry.Valid() && Unshadowed(registry, l) && Cited(registry, l, a, c)
    requires |Selected(registry, l)| == |l.claimIds|
    ensures i < |l.claimIds| && Selected(registry, l)[i] == c
  {
    hide EvidenceRegistry.Valid, Resolve, Listed, ClaimIndex, Selected, Unshadowed;
    i :| 0 <= i < |l.claimIds| && l.claimIds[i] == c.claimId;
    SelectedAt(registry, l, i);
    CitedIsWinner(registry, l, a, c);
  }

  lemma SelectedIsCited(registry: EvidenceRegistry, l: Listing, i: nat) returns (a: Artifact)
    requires registry.Valid() && i < |l.claimIds| && |Selected(registry, l)| == |l.claimIds|
    ensures Cited(registry, l, a, Selected(registry, l)[i]) && Selected(registry, l)[i].claimId == l.claimIds[i]
  {
    hide EvidenceRegistry.Valid, Resolve, Listed, ClaimIndex, Selected;
    SelectedAt(registry, l, i);
    a := WinnerIsCited(registry, l, l.claimIds[i]);
  }

  lemma SoundIsFullySound(registry: EvidenceRegistry, l: Listing, sha: Hasher)
    requires registry.Valid() && Unshadowed(registry, l) && SoundBy(registry, l, sha)
    ensures FullySound(registry, l, sha)
  {
    hide EvidenceRegistry.Valid, SoundBy, Selected, Cited, Unshadowed, ArtifactsReviewed, Contradict;
    var claims := Selected(registry, l);
    SoundParts(registry, l, sha);
    forall id | id in l.claimIds ensures exists a, c :: Cited(registry, l, a, c) && c.claimId == id {
      var i :| 0 <= i < |l.claimIds| && l.claimIds[i] == id;
      var a := SelectedIsCited(registry, l, i);
    }
    forall a, c | Cited(registry, l, a, c) ensures InScope(c, l.applicability) {
      var i := CitedIsSelected(registry, l, a, c);
    }
    forall a, c, b, d | Cited(registry, l, a, c) && Cited(registry, l, b, d) ensures !Contradict(c, d) {
      var i := CitedIsSelected(registry, l, a, c);
      var j := CitedIsSelected(registry, l, b, d);
      ContradictIsSymmetric(c, d);
    }
    if l.semantics.Some? {
      var i :| 0 <= i < |claims| && claims[i].claimType.LossModelDescriptionIdentity? && claims[i].value == sha(l.semantics.value);
      var a := SelectedIsCited(registry, l, i);
      assert Cited(registry, l, a, claims[i]) && Declares(claims[i], l.semantics.value, sha);
    }
  }

  lemma SoundParts(registry: EvidenceRegistry, l: Listing, sha: Hasher)
    requires SoundBy(registry, l, sha)
    ensures l.artifactIds != [] && l.claimIds != [] && ArtifactsReviewed(registry, l.artifactIds, l.hashes)
    ensures ClaimsReviewed(Selected(registry, l), l.claimIds, l.applicability)
    ensures SemanticsBound(l.semantics, Selected(registry, l), sha)
  {
    hide SelectedClaims, ArtifactsReviewed, ClaimsReviewed, SemanticsBound;
  }

  lemma ContradictIsSymmetric(c: Claim, d: Claim)
    ensures Contradict(c, d) <==> Contradict(d, c)
    ensures !Contradict(c, c)
  {
  }

  lemma FullySoundIsSound(registry: EvidenceRegistry, l: Listing, sha: Hasher)
    requires registry.Valid() && Unshadowed(registry, l) && FullySound(registry, l, sha)
    ensures SoundBy(registry, l, sha)
  {
    hide EvidenceRegistry.Valid, Selected, Cited, Unshadowed, ArtifactsReviewed, Contradict;
    var claims := Selected(registry, l);
    AllAreSelected(registry, l, sha);
    forall i | 0 <= i < |l.claimIds|
      ensures claims[i].claimId == l.claimIds[i] && InScope(claims[i], l.applicability)
      ensures exists a :: a in registry.artifacts && a.reviewState.Reviewed? && claims[i] in a.claims
    {
      var a := SelectedIsCited(registry, l, i);
      CitedIsReviewed(registry, l, a, claims[i]);
    }
    forall i, j | 0 <= i < j < |claims| ensures !Contradict(claims[i], claims[j]) {
      var a := SelectedIsCited(registry, l, i);
      var b := SelectedIsCited(registry, l, j);
    }
    if l.semantics.Some? {
      var a, c :| Cited(registry, l, a, c) && Declares(c, l.semantics.value, sha);
      var i := CitedIsSelected(registry, l, a, c);
      assert SemanticsBound(l.semantics, claims, sha);
    }
    assert claims == SelectedClaims(registry, l.artifactIds, l.claimIds) by { SelectedIs(registry, l); }
  }

  lemma SelectedIs(registry: EvidenceRegistry, l: Listing)
    ensures Selected(registry, l) == SelectedClaims(registry, l.artifactIds, l.claimIds)
  {
  }

  lemma CitedIsReviewed(registry: EvidenceRegistry, l: Listing, a: Artifact, c: Claim)
    requires registry.Valid() && ArtifactsReviewed(registry, l.artifactIds, l.hashes) && Cited(registry, l, a, c)
    ensures a in registry.artifacts && a.reviewState.Reviewed? && c in a.claims
  {
    hide EvidenceRegistry.Valid;
    ListedIsReviewed(registry, l.artifactIds, l.hashes, a);
  }

  lemma AllAreSelected(registry: EvidenceRegistry, l: Listing, sha: Hasher)
    requires registry.Valid() && FullySound(registry, l, sha)
    ensures |Selected(registry, l)| == |l.claimIds|
  {
    hide EvidenceRegistry.Valid, Cited, ClaimIndex, Resolve, Select, ArtifactsReviewed, Contradict, InScope, Declares;
    var index := ClaimIndex(Resolve(registry, l.artifactIds));
    forall i | 0 <= i < |l.claimIds| ensures l.claimIds[i] in index {
      assert l.claimIds[i] in l.claimIds;
      var a, c :| Cited(registry, l, a, c) && c.claimId == l.claimIds[i];
      CitedIsIndexed(registry, l, a, c);
    }
    SelectAligned(index, l.claimIds);
  }

  /** Where no identity is shadowed, what the validator establishes is soundness of all the evidence. */
  lemma SoundIffFullySound(registry: EvidenceRegistry, l: Listing, sha: Hasher)
    requires registry.Valid() && Unshadowed(registry, l)
    ensures SoundBy(registry, l, sha) <==> FullySound(registry, l, sha)
  {
    hide *;
    if SoundBy(registry, l, sha) {
      SoundIsFullySound(registry, l, sha);
    }
    if FullySound(registry, l, sha) {
      FullySoundIsSound(registry, l, sha);
    }
  }

  function ListingOf(d: ReviewDecision): Listing {
    Listing(d.artifactIds, d.hashes, d.claimIds, d.applicability, d.semantics)
  }

  /** Where no identity is shadowed, an approval is valid exactly when all its evidence is sound. */
  lemma ApprovalIffFullySound(d: ReviewDecision, registry: EvidenceRegistry, sha: Hasher)
    requires d.Valid() && registry.Valid() && d.state.ApprovedForProofReview? && Unshadowed(registry, ListingOf(d))
    ensures |d.artifactIds| == |d.hashes|
    ensures ReviewValid(d, registry, sha) <==> FullySound(registry, ListingOf(d), sha)
  {
    Aligned(d);
    hide ReviewDecision.Valid, EvidenceRegistry.Valid, ReviewValid, FullySound, EvidenceSound, Unshadowed;
    SoundIffFullySound(registry, ListingOf(d), sha);
    if ReviewValid(d, registry, sha) {
      ApprovalIsSound(d, registry, sha);
    }
    if SoundBy(registry, ListingOf(d), sha) {
      SoundIsApprovable(d, registry, sha);
    }
  }
}
