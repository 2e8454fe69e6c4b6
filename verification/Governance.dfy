/** Where the entries of a registry come from, and that a registry of admitted entries survives its payload. */
module Governance {
  import opened Prelude
  import opened Evidence
  import opened Registration
  import opened Registry
  import opened RegistryRuns
  import opened DurableProofs
  import opened Payload

  const EMPTY_REGISTRY := ProofRegistry([])

  /** Some attempt asked for exactly this entry and was sound when it was admitted. */
  ghost predicate HasProvenance(e: Entry, attempts: seq<Attempt>, sha: Hasher) {
    exists i :: 0 <= i < |attempts| && attempts[i].request == e.request && Sound(attempts[i], sha)
  }

  /** Every entry of a registry grown by admissions alone goes back to a sound attempt. */
  lemma {:induction false} EveryEntryHasProvenance(attempts: seq<Attempt>, sha: Hasher, e: Entry)
    requires AllValid(attempts, sha) && e in AdmitAll(EMPTY_REGISTRY, attempts, sha).entries
    ensures HasProvenance(e, attempts, sha)
  {
    hide ProofRegistry.Valid, HashBound, Admit, Attempt.Valid, Sound;
    if attempts != [] {
      var before, x := AdmitAll(EMPTY_REGISTRY, Init(attempts), sha), Last(attempts);
      EmptyRegistry(sha);
      ReachableRegistry(EMPTY_REGISTRY, Init(attempts), sha);
      AdmitKeepsValid(before, x, sha);
      if e in before.entries {
        EveryEntryHasProvenance(Init(attempts), sha, e);
        var i :| 0 <= i < |Init(attempts)| && Init(attempts)[i].request == e.request && Sound(Init(attempts)[i], sha);
        assert attempts[i].request == e.request && Sound(attempts[i], sha);
      } else {
        AdmittedIff(before, x, sha);
        assert attempts[|attempts| - 1].request == e.request;
      }
    }
  }

  /** A registry grown by admissions survives the durable payload, whatever valid revocations accompany it. */
  lemma ReachableSurvivesPayload(attempts: seq<Attempt>, revocations: seq<Revocation>, sha: Hasher)
    requires AllValid(attempts, sha) && DurableState(AdmitAll(EMPTY_REGISTRY, attempts, sha), revocations).Valid()
    ensures var s := DurableState(AdmitAll(EMPTY_REGISTRY, attempts, sha), revocations);
            DecodeState(EncodeState(s), sha) == Some(s)
  {
    hide ProofRegistry.Valid, DurableState.Valid, DecodeState, EncodeState, AdmitAll, Attempt.Valid;
    var s := DurableState(AdmitAll(EMPTY_REGISTRY, attempts, sha), revocations);
    EmptyRegistry(sha);
    ReachableRegistry(EMPTY_REGISTRY, attempts, sha);
    BoundMatches(s, sha);
    StateRoundTrip(s, sha);
  }

  lemma BoundMatches(s: DurableState, sha: Hasher)
    requires HashBound(s.registry, sha)
    ensures AllMaterialMatches(s, sha)
  {
    forall i | 0 <= i < |s.registry.entries| ensures MaterialMatches(s.registry.entries[i], sha) {
      assert s.registry.entries[i].request.lineage.Bound(sha);
    }
  }
}
