/** Artifact identities are stripped before they are looked up, so an entry may list them with padding. */
module Padding {
  import opened Prelude
  import opened Texts
  import opened Evidence
  import opened EvidenceReview
  import opened EvidenceSoundness
  import opened Registration
  import opened Registry
  import opened Attempts
  import opened Pipeline

  /** A reviewed artifact of exactly this identity and hash is registered. */
  ghost predicate Literal(registry: EvidenceRegistry, id: string, hash: string) {
    exists a :: a in registry.artifacts && a.artifactId == id && a.contentHash == hash && a.reviewState.Reviewed?
  }

  lemma LiteralIffStripped(registry: EvidenceRegistry, id: string, hash: string)
    requires registry.Valid() && Backed(registry, id, hash)
    ensures Literal(registry, id, hash) <==> Strip(id) == id
  {
    hide EvidenceRegistry.Valid, Strip;
    var b :| Backs(registry, b, id, hash);
    if Literal(registry, id, hash) {
      var a :| a in registry.artifacts && a.artifactId == id && a.contentHash == hash && a.reviewState.Reviewed?;
      UniqueByHash(registry, a, b);
    }
  }

  /** An admitted entry lists its artifacts literally exactly when stripping changes none of its identities. */
  lemma AdmittedLiterallyIff(registry: ProofRegistry, x: Attempt, sha: Hasher)
    requires registry.Valid() && x.Valid(sha) && |x.decision.artifactIds| == |x.decision.hashes|
    requires Admit(registry, x, sha).state.Admitted?
    ensures var ids, hashes := x.request.lineage.artifactIds, x.request.lineage.hashes;
            && |ids| == |hashes|
            && ((forall i :: 0 <= i < |ids| ==> Literal(x.evidence, ids[i], hashes[i]))
                <==> (forall i :: 0 <= i < |ids| ==> Strip(ids[i]) == ids[i]))
  {
    hide Strip, Literal, Attempt.Valid, ProofRegistry.Valid, Admit, FullySound, Unshadowed, SoundBy, SomeHit, Lineage.Bound, Backed;
    var l := x.request.lineage;
    AdmittedEvidence(registry, x, sha);
    SoundParts(x.evidence, EvidenceOf(l), sha);
    AttemptEvidenceValid(x, sha);
    forall i | 0 <= i < |l.artifactIds| ensures Literal(x.evidence, l.artifactIds[i], l.hashes[i]) <==> Strip(l.artifactIds[i]) == l.artifactIds[i] {
      LiteralIffStripped(x.evidence, l.artifactIds[i], l.hashes[i]);
    }
  }

  lemma AttemptEvidenceValid(x: Attempt, sha: Hasher)
    requires x.Valid(sha)
    ensures x.evidence.Valid()
  {
    hide EvidenceRegistry.Valid;
  }

  // ---------------------------------------------------------------- padding is admitted

  function Spaces(n: nat): string {
    seq(n, i requires 0 <= i < n => ' ')
  }

  lemma {:induction false} PaddingStrips(n: nat, id: string)
    ensures Strip(Spaces(n) + id) == Strip(id)
  {
    if n > 0 {
      PaddingStrips(n - 1, id);
      assert (Spaces(n) + id)[1..] == Spaces(n - 1) + id;
    } else {
      assert Spaces(0) + id == id;
    }
  }

  lemma {:induction false} StripLeftIsShorter(id: string)
    ensures |StripLeft(id)| <= |id|
  {
    if id != "" && IsSpace(id[0]) {
      StripLeftIsShorter(id[1..]);
    }
  }

  lemma {:induction false} StripRightIsShorter(id: string)
    ensures |StripRight(id)| <= |id|
  {
    if id != "" && IsSpace(Last(id)) {
      StripRightIsShorter(Init(id));
    }
  }

  lemma PaddedIsNotStripped(n: nat, id: string)
    requires n > 0
    ensures Strip(Spaces(n) + id) != Spaces(n) + id
  {
    PaddingStrips(n, id);
    StripLeftIsShorter(id);
    StripRightIsShorter(StripLeft(id));
  }

  /** The length of the longest listed identity. */
  function Longest(ids: seq<string>): (n: nat)
    ensures forall id :: id in ids ==> |id| <= n
  {
    if ids == [] then 0 else
    var n := Longest(Init(ids));
    assert ids == Init(ids) + [Last(ids)];
    if |Last(ids)| > n then |Last(ids)| else n
  }

  /** The request with spaces before one of its artifact identities. */
  function Padded(request: Request, i: nat, n: nat): Request
    requires i < |request.lineage.artifactIds|
  {
    var l := request.lineage;
    request.(lineage := l.(artifactIds := l.artifactIds[i := Spaces(n) + l.artifactIds[i]]))
  }

  lemma PaddedIsValid(request: Request, i: nat, n: nat)
    requires request.Valid() && i < |request.lineage.artifactIds|
    requires Spaces(n) + request.lineage.artifactIds[i] !in request.lineage.artifactIds
    ensures Padded(request, i, n).Valid()
  {
    hide IsHash, Semantics.Valid, Applicability.Complete, Distinct, Spaces, Strip;
    var ids := request.lineage.artifactIds;
    PaddingStrips(n, ids[i]);
    ReplacedIsDistinct(ids, i, Spaces(n) + ids[i]);
  }

  lemma ReplacedIsDistinct(ids: seq<string>, i: nat, id: string)
    requires Distinct(ids) && i < |ids| && id !in ids
    ensures Distinct(ids[i := id])
  {
    var more := ids[i := id];
    forall j, k | 0 <= j < k < |more| ensures more[j] != more[k] {
      assert ids[j] != ids[k] && ids[j] in ids && ids[k] in ids;
    }
  }

  /** With padding that gives an identity not listed yet, an admissible request stays admissible and can be admitted. */
  lemma PaddedBy(request: Request, i: nat, n: nat, sha: Hasher)
    requires request.Valid() && Admissible(request, sha) && i < |request.lineage.artifactIds|
    requires n > 0 && Spaces(n) + request.lineage.artifactIds[i] !in request.lineage.artifactIds
    ensures var padded := Padded(request, i, n);
            && padded.Valid() && Admissible(padded, sha) && CanBeAdmitted(EntryOf(padded), sha)
            && Strip(padded.lineage.artifactIds[i]) != padded.lineage.artifactIds[i]
  {
    var padded := Padded(request, i, n);
    var ids := request.lineage.artifactIds;
    PaddingStrips(n, ids[i]);
    PaddedIsNotStripped(n, ids[i]);
    PaddedIsValid(request, i, n);
    hide Strip, Request.Valid, CanBeAdmitted;
    assert forall j :: 0 <= j < |ids| ==> Strip(padded.lineage.artifactIds[j]) == Strip(ids[j]);
    assert NamesAgree(padded.lineage.artifactIds, padded.lineage.hashes);
    CanBeAdmittedIff(EntryOf(padded), sha);
  }

  /** Every admissible request can be admitted with any one of its artifact identities padded. */
  lemma PaddedIsAdmitted(request: Request, i: nat, sha: Hasher) returns (n: nat)
    requires request.Valid() && Admissible(request, sha) && i < |request.lineage.artifactIds|
    ensures var padded := Padded(request, i, n);
            && padded.Valid() && Admissible(padded, sha) && CanBeAdmitted(EntryOf(padded), sha)
            && Strip(padded.lineage.artifactIds[i]) != padded.lineage.artifactIds[i]
  {
    var ids := request.lineage.artifactIds;
    n := Longest(ids) + 1;
    assert |Spaces(n) + ids[i]| > Longest(ids);
    hide *;
    PaddedBy(request, i, n, sha);
  }
}
