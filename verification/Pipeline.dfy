/**
  The governance chain end to end: which entries can be admitted, what a stored entry obtains, and
  that the two are not the same thing.
*/
module Pipeline {
  import opened Prelude
  import opened Texts
  import opened Sorting
  import opened Evidence
  import opened Registration
  import opened Registry
  import opened RegistryRuns
  import opened Attempts
  import opened DurableProofs
  import opened Payload
  import opened Store
  import opened TermsService
  import opened Governance

  function EntryOf(request: Request): Entry {
    Entry(request, COMPLETE)
  }

  function StateOf(e: Entry): DurableState {
    DurableState(ProofRegistry([e]), [])
  }

  // ---------------------------------------------------------------- admission

  /** A sound attempt is admitted to the empty registry. */
  lemma SoundIsAdmitted(x: Attempt, sha: Hasher)
    requires x.Valid(sha) && Sound(x, sha)
    ensures |x.decision.artifactIds| == |x.decision.hashes|
    ensures Admit(EMPTY_REGISTRY, x, sha).state.Admitted? && Admit(EMPTY_REGISTRY, x, sha).registry == StateOf(EntryOf(x.request)).registry
  {
    var e := EntryOf(x.request);
    assert Insert([], e, ProofIdOf) == [e];
    EmptyRegistry(sha);
    FreshInEmpty(x.request);
    hide *;
    AdmittedIff(EMPTY_REGISTRY, x, sha);
    AdmitInserts(EMPTY_REGISTRY, x, sha);
    Unfold(x.request);
  }

  lemma FreshInEmpty(request: Request)
    ensures Fresh(EMPTY_REGISTRY, request)
  {
  }

  lemma Unfold(request: Request)
    ensures EntryOf(request) == Entry(request, COMPLETE)
    ensures StateOf(EntryOf(request)) == DurableState(ProofRegistry([EntryOf(request)]), [])
    ensures EMPTY_REGISTRY.entries == []
  {
  }

  /** Some sequence of admissions from nothing leads to a registry with this entry. */
  ghost predicate CanBeAdmitted(e: Entry, sha: Hasher) {
    exists attempts: seq<Attempt> :: AllValid(attempts, sha) && e in AdmitAll(EMPTY_REGISTRY, attempts, sha).entries
  }

  lemma AttemptAdmits(x: Attempt, sha: Hasher)
    requires x.Valid(sha) && Sound(x, sha)
    ensures CanBeAdmitted(EntryOf(x.request), sha)
  {
    hide Attempt.Valid, Sound, Admit;
    SoundIsAdmitted(x, sha);
    var attempts := [x];
    assert Init(attempts) == [];
    assert AllValid(attempts, sha);
    assert AdmitAll(EMPTY_REGISTRY, attempts, sha) == Admit(AdmitAll(EMPTY_REGISTRY, [], sha), x, sha).registry;
  }

  /** An entry can be admitted exactly when its request is admissible. */
  lemma CanBeAdmittedIff(e: Entry, sha: Hasher)
    requires e.Valid()
    ensures CanBeAdmitted(e, sha) <==> Admissible(e.request, sha)
  {
    hide Admissible, Request.Valid, Attempt.Valid, Sound, AdmitAll;
    AdmissibleIff(e.request, sha);
    if CanBeAdmitted(e, sha) {
      var attempts: seq<Attempt> :| AllValid(attempts, sha) && e in AdmitAll(EMPTY_REGISTRY, attempts, sha).entries;
      EveryEntryHasProvenance(attempts, sha, e);
      var i :| 0 <= i < |attempts| && attempts[i].request == e.request && Sound(attempts[i], sha);
      assert Backing(attempts[i], e.request, sha);
    }
    if x :| Backing(x, e.request, sha) {
      AttemptAdmits(x, sha);
      assert EntryOf(e.request) == e;
    }
  }

  // ---------------------------------------------------------------- which registries admissions can reach

  ghost predicate AllAdmissible(registry: ProofRegistry, sha: Hasher) {
    forall i :: 0 <= i < |registry.entries| ==> Admissible(registry.entries[i].request, sha)
  }

  ghost predicate Reachable(registry: ProofRegistry, sha: Hasher) {
    exists attempts: seq<Attempt> :: AllValid(attempts, sha) && AdmitAll(EMPTY_REGISTRY, attempts, sha) == registry
  }

  lemma ReachedIsAdmissible(attempts: seq<Attempt>, sha: Hasher)
    requires AllValid(attempts, sha)
    ensures var registry := AdmitAll(EMPTY_REGISTRY, attempts, sha);
            registry.Valid() && AllAdmissible(registry, sha)
  {
    hide ProofRegistry.Valid, HashBound, Attempt.Valid, AdmitAll, Admissible, Sound;
    var registry := AdmitAll(EMPTY_REGISTRY, attempts, sha);
    EmptyRegistry(sha);
    ReachableRegistry(EMPTY_REGISTRY, attempts, sha);
    forall i | 0 <= i < |registry.entries| ensures Admissible(registry.entries[i].request, sha) {
      EveryEntryHasProvenance(attempts, sha, registry.entries[i]);
      var j :| 0 <= j < |attempts| && attempts[j].request == registry.entries[i].request && Sound(attempts[j], sha);
      AttemptIsAdmissible(attempts[j], sha);
    }
  }

  /** All but the last entry of a valid registry, and the last as a newcomer to them. */
  lemma WithoutLast(registry: ProofRegistry)
    requires registry.Valid() && registry.entries != []
    ensures ProofRegistry(Init(registry.entries)).Valid()
    ensures Fresh(ProofRegistry(Init(registry.entries)), Last(registry.entries).request)
    ensures Insert(Init(registry.entries), Last(registry.entries), ProofIdOf) == registry.entries
    ensures Last(registry.entries).Valid()
  {
    hide Entry.Valid, Before, Insert;
    var entries, less := registry.entries, Init(registry.entries);
    assert Keys(less, ProofIdOf) == Init(Keys(entries, ProofIdOf));
    assert Keys(less, AdmissionIdOf) == Init(Keys(entries, AdmissionIdOf));
    assert Keys(less, CandidateIdOf) == Init(Keys(entries, CandidateIdOf));
    SortedIffAscending(entries, ProofIdOf);
    SortedIffAscending(less, ProofIdOf);
    assert Sorted(entries, ProofIdOf) == Insert(Sorted(less, ProofIdOf), Last(entries), ProofIdOf);
    NewcomerIsFresh(registry);
  }

  lemma KeysDiffer(entries: seq<Entry>, key: Entry -> string, i: nat, n: nat)
    requires Distinct(Keys(entries, key)) && i < n < |entries|
    ensures key(entries[i]) != key(entries[n])
  {
    assert Keys(entries, key)[i] != Keys(entries, key)[n];
  }

  lemma NewcomerIsFresh(registry: ProofRegistry)
    requires registry.entries != []
    requires Distinct(Keys(registry.entries, ProofIdOf)) && Distinct(Keys(registry.entries, AdmissionIdOf)) && Distinct(Keys(registry.entries, CandidateIdOf))
    ensures Fresh(ProofRegistry(Init(registry.entries)), Last(registry.entries).request)
  {
    var entries, n := registry.entries, |registry.entries| - 1;
    forall e | e in Init(entries)
      ensures e.request.proofId != entries[n].request.proofId && e.request.admissionId != entries[n].request.admissionId
      ensures e.request.lineage.candidateId != entries[n].request.lineage.candidateId
    {
      var i :| 0 <= i < n && Init(entries)[i] == e;
      KeysDiffer(entries, ProofIdOf, i, n);
      KeysDiffer(entries, AdmissionIdOf, i, n);
      KeysDiffer(entries, CandidateIdOf, i, n);
      assert ProofIdOf(e) != ProofIdOf(entries[n]) && AdmissionIdOf(e) != AdmissionIdOf(entries[n]) && CandidateIdOf(e) != CandidateIdOf(entries[n]);
    }
  }

  /** Admitting the entries one by one, in order, rebuilds the registry. */
  lemma {:induction false} Rebuild(registry: ProofRegistry, sha: Hasher) returns (attempts: seq<Attempt>)
    requires registry.Valid() && AllAdmissible(registry, sha)
    ensures AllValid(attempts, sha) && AdmitAll(EMPTY_REGISTRY, attempts, sha) == registry
    decreases |registry.entries|
  {
    hide ProofRegistry.Valid, Attempt.Valid, Admit, Admissible, Insert, Fresh, AllAdmissible, AdmitAll, AllValid;
    if registry.entries == [] {
      attempts := [];
      NoAttempts(sha);
    } else {
      var less, e := ProofRegistry(Init(registry.entries)), Last(registry.entries);
      WithoutLast(registry);
      AdmissibleParts(registry, sha);
      var before := Rebuild(less, sha);
      var x := AdmitsNext(less, e, sha);
      attempts := before + [x];
      OneMoreAttempt(before, x, sha);
    }
  }

  lemma NoAttempts(sha: Hasher)
    ensures AllValid([], sha) && AdmitAll(EMPTY_REGISTRY, [], sha) == EMPTY_REGISTRY
  {
  }

  lemma OneMoreAttempt(before: seq<Attempt>, x: Attempt, sha: Hasher)
    requires AllValid(before, sha) && x.Valid(sha) && |x.decision.artifactIds| == |x.decision.hashes|
    ensures AllValid(before + [x], sha)
    ensures AdmitAll(EMPTY_REGISTRY, before + [x], sha) == Admit(AdmitAll(EMPTY_REGISTRY, before, sha), x, sha).registry
  {
    hide Attempt.Valid, Admit;
    assert Init(before + [x]) == before;
  }

  lemma AdmissibleParts(registry: ProofRegistry, sha: Hasher)
    requires AllAdmissible(registry, sha) && registry.entries != []
    ensures AllAdmissible(ProofRegistry(Init(registry.entries)), sha) && Admissible(Last(registry.entries).request, sha)
  {
    hide Admissible;
  }

  /** An admissible newcomer has an attempt that adds exactly it. */
  lemma AdmitsNext(registry: ProofRegistry, e: Entry, sha: Hasher) returns (x: Attempt)
    requires registry.Valid() && e.Valid() && Admissible(e.request, sha) && Fresh(registry, e.request)
    ensures x.Valid(sha) && |x.decision.artifactIds| == |x.decision.hashes|
    ensures Admit(registry, x, sha).registry == ProofRegistry(Insert(registry.entries, e, ProofIdOf))
  {
    hide ProofRegistry.Valid, Attempt.Valid, Admit, Admissible, Insert, Fresh, Sound, Request.Valid;
    AdmissibleIff(e.request, sha);
    x :| Backing(x, e.request, sha);
    AdmittedIff(registry, x, sha);
    AdmitInserts(registry, x, sha);
    assert Entry(x.request, COMPLETE) == e;
  }

  /** A registry is what some admissions from nothing lead to exactly when it is valid and all its requests are admissible. */
  lemma ReachableIff(registry: ProofRegistry, sha: Hasher)
    ensures Reachable(registry, sha) <==> registry.Valid() && AllAdmissible(registry, sha)
  {
    hide ProofRegistry.Valid, AllAdmissible, AdmitAll, AllValid;
    if Reachable(registry, sha) {
      var attempts: seq<Attempt> :| AllValid(attempts, sha) && AdmitAll(EMPTY_REGISTRY, attempts, sha) == registry;
      ReachedIsAdmissible(attempts, sha);
    }
    if registry.Valid() && AllAdmissible(registry, sha) {
      var attempts := Rebuild(registry, sha);
    }
  }

  // ---------------------------------------------------------------- a stored entry and its terms

  /** What a request must be for a stored entry to price it: same scope, in force, within its semantics and risk. */
  ghost predicate Serves(e: Entry, request: ServiceRequest) {
    && request.applicability == e.request.lineage.applicability
    && e.request.lineage.validFrom <= request.evaluatedAt <= e.request.lineage.validUntil
    && Priced(e, request)
  }

  lemma OneEntryIsValid(e: Entry, sha: Hasher)
    requires e.Valid() && MaterialMatches(e, sha)
    ensures StateOf(e).Valid() && AllMaterialMatches(StateOf(e), sha)
  {
    hide Entry.Valid, MaterialMatches, Revocation.Valid;
    assert Init([e]) == [];
    assert Sorted([e], ProofIdOf) == [e];
  }

  lemma OneEntryInForce(e: Entry, request: ServiceRequest)
    requires Serves(e, request)
    ensures InForce(StateOf(e), request.applicability, request.evaluatedAt, e)
  {
    hide Priced;
    assert Init([e]) == [];
    assert Matches([], request.applicability) == [];
    assert Matches([e], request.applicability) == [e];
  }

  lemma EmptyLoads(h: Hashes)
    ensures LoadOf(None, h) == Ok(EMPTY_STATE)
  {
  }

  lemma EmptyGrows(s: DurableState)
    ensures Grows(EMPTY_STATE, s)
  {
  }

  /** The row an empty store holds after persisting this one entry. */
  function RowOf(e: Entry, h: Hashes): Option<Row> {
    match PersistOf(None, StateOf(e), h) case Ok(row) => Some(row) case Err(_) => None
  }

  /**
    The store asks only for a valid entry whose material hash matches: it takes any such entry, loads it
    back, and the service offers terms for every request the entry serves.
  */
  lemma StoredEntryGetsTerms(e: Entry, request: ServiceRequest, h: Hashes)
    requires e.Valid() && MaterialMatches(e, h.sha) && Serves(e, request)
    ensures PersistOf(None, StateOf(e), h).Ok? && LoadOf(RowOf(e, h), h) == Ok(StateOf(e))
    ensures exists t :: Evaluate(RowOf(e, h), request, h) == Ok(ServiceResult(TermsAvailable, Some(t)))
  {
    var state := StateOf(e);
    OneEntryIsValid(e, h.sha);
    OneEntryInForce(e, request);
    EmptyLoads(h);
    EmptyGrows(state);
    assert Priced(e, request);
    hide *;
    PersistIff(None, state, h);
    PersistThenLoad(None, state, h);
    RowIs(e, h);
    TermsIff(RowOf(e, h), request, h);
    assert InForce(state, request.applicability, request.evaluatedAt, e) && Priced(e, request);
  }

  lemma RowIs(e: Entry, h: Hashes)
    requires PersistOf(None, StateOf(e), h).Ok?
    ensures RowOf(e, h) == Some(PersistOf(None, StateOf(e), h).value)
  {
  }

  /**
    The exact condition under which offered terms have an admission behind them, for any row: they come
    from the one entry in force for the scope, and that entry could have come from admissions if and only
    if its request is admissible, that is its semantics carry the loss model's identity and version and
    its artifact names agree with their hashes. Neither the store nor the service looks at these.
  */
  lemma TermsProvenanceIff(row: Option<Row>, request: ServiceRequest, h: Hashes, t: Terms)
    requires Evaluate(row, request, h) == Ok(ServiceResult(TermsAvailable, Some(t)))
    ensures LoadOf(row, h).Ok?
    ensures exists e ::
              && InForce(LoadOf(row, h).value, request.applicability, request.evaluatedAt, e)
              && t.proofId == e.request.proofId && t.materialHash == e.request.lineage.materialHash
              && (CanBeAdmitted(e, h.sha) <==> Admissible(e.request, h.sha))
  {
    hide LoadOf, Evaluate, Matches, EntryRevoked, DurableState.Valid, CanBeAdmitted, Admissible, Entry.Valid, AllMaterialMatches;
    TermsNeedStore(row, request, h);
    TermsAreBound(row, request, h, t);
    LoadedIsValid(row, h);
    var s := LoadOf(row, h).value;
    var e :| InForce(s, request.applicability, request.evaluatedAt, e)
          && t.proofId == e.request.proofId && t.materialHash == e.request.lineage.materialHash;
    assert e in Matches(s.registry.entries, request.applicability);
    StoredIsValid(s, e);
    CanBeAdmittedIff(e, h.sha);
  }

  lemma StoredIsValid(s: DurableState, e: Entry)
    requires s.Valid() && e in s.registry.entries
    ensures e.Valid()
  {
    hide Entry.Valid, Revocation.Valid, Sorted, Consistent;
    var i :| 0 <= i < |s.registry.entries| && s.registry.entries[i] == e;
  }

  lemma BoundMaterialMatches(e: Entry, sha: Hasher)
    requires e.request.lineage.Bound(sha)
    ensures MaterialMatches(e, sha)
  {
  }

  /**
    Every admissible request completes the chain: an attempt for it is admitted, the entry is persisted
    and loaded back, and the service offers terms for every request it serves.
  */
  lemma PipelineCompletes(request: Request, service: ServiceRequest, h: Hashes)
    requires request.Valid() && Admissible(request, h.sha) && Serves(EntryOf(request), service)
    ensures CanBeAdmitted(EntryOf(request), h.sha)
    ensures LoadOf(RowOf(EntryOf(request), h), h) == Ok(StateOf(EntryOf(request)))
    ensures exists t :: Evaluate(RowOf(EntryOf(request), h), service, h) == Ok(ServiceResult(TermsAvailable, Some(t)))
  {
    var e := EntryOf(request);
    assert e.Valid() && e.request == request && e.request.lineage.Bound(h.sha) by {
      hide Request.Valid, NamesAgree, Serves;
    }
    hide *;
    BoundMaterialMatches(e, h.sha);
    CanBeAdmittedIff(e, h.sha);
    StoredEntryGetsTerms(e, service, h);
  }

}
