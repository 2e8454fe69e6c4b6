/**
  The exact condition under which a valid approval speaks for all its evidence. A claim whose identity
  a later artifact repeats is never looked at, so its review state is free; where no identity is
  repeated, nothing escapes.
*/
module Shadowing {
  import opened Prelude
  import opened Texts
  import opened Evidence
  import opened EvidenceReview
  import opened EvidenceSoundness

  /** The same claim, whatever its review state. */
  predicate SameClaim(c: Claim, d: Claim) {
    d == c.(reviewState := d.reviewState)
  }

  predicate SameArtifact(a: Artifact, b: Artifact) {
    && b == a.(claims := b.claims) && |b.claims| == |a.claims|
    && forall j :: 0 <= j < |a.claims| ==> SameClaim(a.claims[j], b.claims[j])
  }

  /** The same evidence, its claims reviewed anew. */
  predicate Rereviewed(registry: EvidenceRegistry, other: EvidenceRegistry) {
    && |other.artifacts| == |registry.artifacts|
    && forall i :: 0 <= i < |registry.artifacts| ==> SameArtifact(registry.artifacts[i], other.artifacts[i])
  }

  lemma SameArtifactValid(a: Artifact, b: Artifact)
    requires a.Valid() && SameArtifact(a, b)
    ensures b.Valid() && b.artifactId == a.artifactId && b.contentHash == a.contentHash
  {
    hide NonBlank, IsHash, Applicability.Valid;
    forall j | 0 <= j < |b.claims| ensures b.claims[j].Valid() && b.claims[j].artifactId == b.artifactId {
      assert SameClaim(a.claims[j], b.claims[j]) && a.claims[j].Valid();
    }
    forall i, j | 0 <= i < j < |b.claims| ensures b.claims[i].claimId != b.claims[j].claimId {
      assert SameClaim(a.claims[i], b.claims[i]) && SameClaim(a.claims[j], b.claims[j]);
    }
  }

  lemma RereviewedValid(registry: EvidenceRegistry, other: EvidenceRegistry)
    requires registry.Valid() && Rereviewed(registry, other)
    ensures other.Valid()
  {
    hide Artifact.Valid, SameArtifact;
    forall i | 0 <= i < |other.artifacts|
      ensures other.artifacts[i].Valid()
      ensures other.artifacts[i].artifactId == registry.artifacts[i].artifactId
      ensures other.artifacts[i].contentHash == registry.artifacts[i].contentHash
    {
      SameArtifactValid(registry.artifacts[i], other.artifacts[i]);
    }
  }

  /** A citation of the re-reviewed evidence is one of the original, in the artifact at the same place. */
  lemma CitationBack(registry: EvidenceRegistry, other: EvidenceRegistry, l: Listing, a: Artifact, c: Claim)
    returns (i: nat, d: Claim)
    requires registry.Valid() && Rereviewed(registry, other) && Cited(other, l, a, c)
    ensures i < |registry.artifacts| && other.artifacts[i] == a
    ensures Cited(registry, l, registry.artifacts[i], d) && d.claimId == c.claimId
  {
    hide EvidenceRegistry.Valid, Strip;
    i :| 0 <= i < |other.artifacts| && other.artifacts[i] == a;
    var b := registry.artifacts[i];
    assert SameArtifact(b, a) && b in registry.artifacts;
    var j :| 0 <= j < |a.claims| && a.claims[j] == c;
    d := b.claims[j];
    assert SameClaim(d, c) && d in b.claims;
  }

  lemma RereviewedUnshadowed(registry: EvidenceRegistry, other: EvidenceRegistry, l: Listing)
    requires registry.Valid() && Rereviewed(registry, other) && Unshadowed(registry, l)
    ensures Unshadowed(other, l)
  {
    hide Rereviewed, Cited;
    forall a, c, b, d | Cited(other, l, a, c) && Cited(other, l, b, d) && c.claimId == d.claimId ensures a == b {
      var i, c' := CitationBack(registry, other, l, a, c);
      var j, d' := CitationBack(registry, other, l, b, d);
      hide Artifact.Valid;
      assert registry.artifacts[i] == registry.artifacts[j];
    }
  }

  // ---------------------------------------------------------------- rejecting a claim nobody looks at

  function RejectClaim(c: Claim, id: string): Claim {
    if c.claimId == id then c.(reviewState := Rejected) else c
  }

  function RejectClaims(claims: seq<Claim>, id: string): (r: seq<Claim>)
    ensures |r| == |claims|
  {
    seq(|claims|, j requires 0 <= j < |claims| => RejectClaim(claims[j], id))
  }

  function Edit(a: Artifact, target: Artifact, id: string): Artifact {
    if a == target then a.(claims := RejectClaims(a.claims, id)) else a
  }

  function EditAll(artifacts: seq<Artifact>, target: Artifact, id: string): (r: seq<Artifact>)
    ensures |r| == |artifacts|
  {
    seq(|artifacts|, i requires 0 <= i < |artifacts| => Edit(artifacts[i], target, id))
  }

  lemma EditIsRereview(registry: EvidenceRegistry, target: Artifact, id: string)
    ensures Rereviewed(registry, EvidenceRegistry(EditAll(registry.artifacts, target, id)))
  {
  }

  lemma {:induction false} FindRejected(claims: seq<Claim>, id: string, k: string)
    ensures FindClaim(RejectClaims(claims, id), k) ==
            match FindClaim(claims, k) case None => None case Some(c) => Some(RejectClaim(c, id))
  {
    if claims != [] {
      FindRejected(Init(claims), id, k);
      assert Init(RejectClaims(claims, id)) == RejectClaims(Init(claims), id);
    }
  }

  /** Rejecting claims of one identity changes no other identity's winner. */
  lemma {:induction false} OthersUnchanged(artifacts: seq<Artifact>, target: Artifact, id: string, k: string)
    requires k != id
    ensures Winner(EditAll(artifacts, target, id), k) == Winner(artifacts, k)
  {
    if artifacts != [] {
      assert Init(EditAll(artifacts, target, id)) == EditAll(Init(artifacts), target, id);
      FindRejected(Last(artifacts).claims, id, k);
      OthersUnchanged(Init(artifacts), target, id, k);
    }
  }

  /** Nor its own winner, when the artifact edited is not the one that carries it. */
  lemma {:induction false} CarrierUnchanged(artifacts: seq<Artifact>, target: Artifact, id: string)
    requires Carrier(artifacts, id) != Some(target)
    ensures Winner(EditAll(artifacts, target, id), id) == Winner(artifacts, id)
  {
    if artifacts != [] {
      assert Init(EditAll(artifacts, target, id)) == EditAll(Init(artifacts), target, id);
      FindRejected(Last(artifacts).claims, id, id);
      if FindClaim(Last(artifacts).claims, id).None? {
        CarrierUnchanged(Init(artifacts), target, id);
      }
    }
  }

  lemma {:induction false} FindEdited(artifacts: seq<Artifact>, target: Artifact, id: string, name: string)
    ensures EvidenceRegistry.Find(EditAll(artifacts, target, id), name) ==
            match EvidenceRegistry.Find(artifacts, name) case None => None case Some(a) => Some(Edit(a, target, id))
  {
    if artifacts != [] {
      FindEdited(artifacts[1..], target, id, name);
      assert EditAll(artifacts, target, id)[1..] == EditAll(artifacts[1..], target, id);
    }
  }

  lemma {:induction false} ResolveEdited(registry: EvidenceRegistry, target: Artifact, id: string, ids: seq<string>)
    ensures Resolve(EvidenceRegistry(EditAll(registry.artifacts, target, id)), ids) == EditAll(Resolve(registry, ids), target, id)
  {
    if ids != [] {
      ResolveEdited(registry, target, id, Init(ids));
      FindEdited(registry.artifacts, target, id, Strip(Last(ids)));
      hide Strip, EvidenceRegistry.Find, Edit;
    }
  }

  lemma IndexUnchanged(artifacts: seq<Artifact>, target: Artifact, id: string)
    requires Carrier(artifacts, id) != Some(target)
    ensures ClaimIndex(EditAll(artifacts, target, id)) == ClaimIndex(artifacts)
  {
    var was, now := ClaimIndex(artifacts), ClaimIndex(EditAll(artifacts, target, id));
    hide ClaimIndex, Winner, Carrier;
    forall k ensures k in now <==> k in was
             ensures k in was && k in now ==> now[k] == was[k]
    {
      IndexAt(artifacts, k);
      IndexAt(EditAll(artifacts, target, id), k);
      if k == id {
        CarrierUnchanged(artifacts, target, id);
      } else {
        OthersUnchanged(artifacts, target, id, k);
      }
    }
  }

  function Edited(registry: EvidenceRegistry, target: Artifact, id: string): EvidenceRegistry {
    EvidenceRegistry(EditAll(registry.artifacts, target, id))
  }

  lemma SelectionUnchanged(registry: EvidenceRegistry, l: Listing, target: Artifact, id: string)
    requires Carrier(Resolve(registry, l.artifactIds), id) != Some(target)
    ensures Selected(Edited(registry, target, id), l) == Selected(registry, l)
  {
    hide ClaimIndex, Resolve, Select, Carrier;
    ResolveEdited(registry, target, id, l.artifactIds);
    IndexUnchanged(Resolve(registry, l.artifactIds), target, id);
  }

  lemma ReviewsUnchanged(registry: EvidenceRegistry, target: Artifact, id: string, ids: seq<string>, hashes: seq<string>)
    requires ArtifactsReviewed(registry, ids, hashes)
    ensures ArtifactsReviewed(Edited(registry, target, id), ids, hashes)
  {
    hide Strip;
    var other := Edited(registry, target, id);
    forall i | 0 <= i < |ids| ensures Backed(other, ids[i], hashes[i]) {
      assert Backed(registry, ids[i], hashes[i]);
      var a :| Backs(registry, a, ids[i], hashes[i]);
      var k :| 0 <= k < |registry.artifacts| && registry.artifacts[k] == a;
      assert other.artifacts[k] == Edit(a, target, id);
      assert Backs(other, other.artifacts[k], ids[i], hashes[i]);
    }
  }

  /** The edited evidence is just as sound to the validator. */
  lemma EditedIsSound(registry: EvidenceRegistry, l: Listing, sha: Hasher, target: Artifact, id: string)
    requires registry.Valid() && SoundBy(registry, l, sha) && Carrier(Resolve(registry, l.artifactIds), id) != Some(target)
    ensures Edited(registry, target, id).Valid() && SoundBy(Edited(registry, target, id), l, sha)
  {
    hide EvidenceRegistry.Valid, SoundBy, Selected, ArtifactsReviewed, ClaimsReviewed, SemanticsBound, Carrier, Resolve, Cited, Edited, EditAll;
    var other := Edited(registry, target, id);
    EditedIs(registry, target, id);
    EditIsRereview(registry, target, id);
    RereviewedValid(registry, other);
    SoundParts(registry, l, sha);
    SelectionUnchanged(registry, l, target, id);
    ReviewsUnchanged(registry, target, id, l.artifactIds, l.hashes);
    SoundFrom(other, l, sha);
  }

  lemma EditedIs(registry: EvidenceRegistry, target: Artifact, id: string)
    ensures Edited(registry, target, id) == EvidenceRegistry(EditAll(registry.artifacts, target, id))
  {
  }

  /** Soundness to the validator, put together from its parts. */
  lemma SoundFrom(registry: EvidenceRegistry, l: Listing, sha: Hasher)
    requires registry.Valid() && l.artifactIds != [] && l.claimIds != [] && ArtifactsReviewed(registry, l.artifactIds, l.hashes)
    requires ClaimsReviewed(Selected(registry, l), l.claimIds, l.applicability) && SemanticsBound(l.semantics, Selected(registry, l), sha)
    ensures SoundBy(registry, l, sha)
  {
    hide EvidenceRegistry.Valid, ArtifactsReviewed, SemanticsBound, Cited;
    var claims := Selected(registry, l);
    assert |claims| == |l.claimIds|;
    hide Selected;
    forall i | 0 <= i < |claims|
      ensures exists a :: a in registry.artifacts && a.reviewState.Reviewed? && claims[i] in a.claims
    {
      var a := SelectedIsCited(registry, l, i);
      CitedIsReviewed(registry, l, a, claims[i]);
    }
    SelectedIs(registry, l);
  }

  /** A shadowed claim, edited to be rejected, is still cited. */
  lemma RejectedIsCited(registry: EvidenceRegistry, l: Listing, target: Artifact, c: Claim)
    requires Cited(registry, l, target, c)
    ensures var other := Edited(registry, target, c.claimId);
            Cited(other, l, Edit(target, target, c.claimId), RejectClaim(c, c.claimId))
  {
    hide Strip;
    var other := Edited(registry, target, c.claimId);
    var k :| 0 <= k < |registry.artifacts| && registry.artifacts[k] == target;
    assert other.artifacts[k] == Edit(target, target, c.claimId);
    var j :| 0 <= j < |target.claims| && target.claims[j] == c;
    assert other.artifacts[k].claims[j] == RejectClaim(c, c.claimId);
  }

  /** Two listed artifacts that repeat an identity: one of them can be re-reviewed unseen. */
  lemma ShadowEscapes(registry: EvidenceRegistry, l: Listing, sha: Hasher, a: Artifact, c: Claim, b: Artifact, d: Claim)
    returns (other: EvidenceRegistry)
    requires registry.Valid() && SoundBy(registry, l, sha)
    requires Cited(registry, l, a, c) && Cited(registry, l, b, d) && c.claimId == d.claimId && a != b
    ensures Rereviewed(registry, other) && SoundBy(other, l, sha) && !FullySound(other, l, sha)
  {
    hide EvidenceRegistry.Valid, SoundBy, Cited, Carrier, Resolve, Edited, EditAll, Rereviewed;
    var (loser, claim) := if Carrier(Resolve(registry, l.artifactIds), c.claimId) == Some(a) then (b, d) else (a, c);
    other := Edited(registry, loser, claim.claimId);
    EditedIsSound(registry, l, sha, loser, claim.claimId);
    EditedIs(registry, loser, claim.claimId);
    EditIsRereview(registry, loser, claim.claimId);
    RejectedIsCited(registry, l, loser, claim);
    assert !InScope(RejectClaim(claim, claim.claimId), l.applicability);
  }

  /**
    The exact condition. Given evidence the validator finds sound, that verdict speaks for every cited
    claim, whatever the claims' review states, if and only if no listed claim identity is carried by two
    listed artifacts.
  */
  lemma VerdictCoversAllIff(registry: EvidenceRegistry, l: Listing, sha: Hasher)
    requires registry.Valid() && SoundBy(registry, l, sha)
    ensures (forall other :: Rereviewed(registry, other) && SoundBy(other, l, sha) ==> FullySound(other, l, sha))
            <==> Unshadowed(registry, l)
  {
    hide EvidenceRegistry.Valid, SoundBy, Cited, Rereviewed, FullySound;
    if Unshadowed(registry, l) {
      forall other | Rereviewed(registry, other) && SoundBy(other, l, sha) ensures FullySound(other, l, sha) {
        hide Unshadowed;
        RereviewedValid(registry, other);
        RereviewedUnshadowed(registry, other, l);
        SoundIffFullySound(other, l, sha);
      }
    } else {
      var a, c, b, d :| Cited(registry, l, a, c) && Cited(registry, l, b, d) && c.claimId == d.claimId && a != b;
      var other := ShadowEscapes(registry, l, sha, a, c, b, d);
    }
  }
}
