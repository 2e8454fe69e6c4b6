/** What every sequence of admission attempts keeps. */
module RegistryRuns {
  import opened Prelude
  import opened Texts
  import opened Sorting
  import opened Evidence
  import opened EvidenceReview
  import opened Registration
  import opened Registry

  // ---------------------------------------------------------------- inserting into the ordered history

  lemma {:induction false} InsertAt<T>(items: seq<T>, x: T, key: T -> string) returns (k: nat)
    ensures k <= |items| && Insert(items, x, key) == items[..k] + [x] + items[k..]
  {
    if items != [] && Before(key(x), key(Last(items))) {
      k := InsertAt(Init(items), x, key);
      assert Init(items)[..k] == items[..k] && Init(items)[k..] + [Last(items)] == items[k..];
    } else {
      k := |items|;
    }
  }

  lemma InsertDistinct<T>(items: seq<T>, x: T, order: T -> string, key: T -> string)
    requires Distinct(Keys(items, key)) && key(x) !in Keys(items, key)
    ensures Distinct(Keys(Insert(items, x, order), key))
  {
    var k := InsertAt(items, x, order);
    var keys, all := Keys(items, key), Keys(Insert(items, x, order), key);
    assert forall i :: 0 <= i < |all| ==> all[i] == if i < k then keys[i] else if i == k then key(x) else keys[i - 1];
    hide Keys, Insert;
    forall i, j | 0 <= i < j < |all| ensures all[i] != all[j] {
      var a, b := if i < k then i else i - 1, if j < k then j else j - 1;
      assert i != k ==> all[i] == keys[a];
      assert j != k ==> all[j] == keys[b];
    }
  }

  lemma InsertMembers<T>(items: seq<T>, x: T, order: T -> string, y: T)
    ensures y in Insert(items, x, order) <==> y in items || y == x
  {
    var k := InsertAt(items, x, order);
    assert y in items <==> y in items[..k] || y in items[k..] by {
      assert items == items[..k] + items[k..];
    }
  }

  lemma NotAKey(entries: seq<Entry>, key: Entry -> string, id: string)
    requires forall e :: e in entries ==> key(e) != id
    ensures id !in Keys(entries, key)
  {
    forall i | 0 <= i < |entries| ensures Keys(entries, key)[i] != id {
      assert entries[i] in entries;
    }
  }

  lemma InsertKeepsValid(registry: ProofRegistry, entry: Entry)
    requires registry.Valid() && entry.Valid() && Fresh(registry, entry.request)
    ensures Sorted(registry.entries + [entry], ProofIdOf) == Insert(registry.entries, entry, ProofIdOf)
    ensures ProofRegistry(Insert(registry.entries, entry, ProofIdOf)).Valid()
  {
    var before, all := registry.entries, Insert(registry.entries, entry, ProofIdOf);
    assert Init(before + [entry]) == before;
    NotAKey(before, ProofIdOf, ProofIdOf(entry));
    NotAKey(before, AdmissionIdOf, AdmissionIdOf(entry));
    NotAKey(before, CandidateIdOf, CandidateIdOf(entry));
    InsertDistinct(before, entry, ProofIdOf, ProofIdOf);
    InsertDistinct(before, entry, ProofIdOf, AdmissionIdOf);
    InsertDistinct(before, entry, ProofIdOf, CandidateIdOf);
    SortedIffAscending(before, ProofIdOf);
    InsertAscending(before, entry, ProofIdOf);
    SortedIffAscending(all, ProofIdOf);
    hide Insert, Sorted, Distinct, Ascending, Keys, Entry.Valid;
    forall i | 0 <= i < |all| ensures all[i].Valid() {
      InsertMembers(before, entry, ProofIdOf, all[i]);
    }
  }

  // ---------------------------------------------------------------- one admission

  /** Declared semantics of every entry hash to the entry's material hash. */
  ghost predicate HashBound(registry: ProofRegistry, sha: Hasher) {
    forall i :: 0 <= i < |registry.entries| ==> registry.entries[i].request.lineage.Bound(sha)
  }

  lemma EntryIsValid(x: Attempt, sha: Hasher)
    requires x.Valid(sha)
    ensures Entry(x.request, COMPLETE).Valid()
  {
  }

  lemma AdmitInserts(registry: ProofRegistry, x: Attempt, sha: Hasher)
    requires registry.Valid() && x.Valid(sha) && |x.decision.artifactIds| == |x.decision.hashes|
    requires Admit(registry, x, sha).state.Admitted?
    ensures var entry := Entry(x.request, COMPLETE);
            && Admit(registry, x, sha).registry == ProofRegistry(Insert(registry.entries, entry, ProofIdOf))
            && Admit(registry, x, sha).registry.Valid() && entry.request.lineage.Bound(sha)
  {
    hide AdmissionProblems, ProofRegistry.Valid, ProofRegistry.GetHistorical, Clashes, Sorted, Insert, Request.Authority;
    hide EvidenceSound, Sound, Fresh, SomeHit, Lineage.Bound, Attempt.Valid;
    EntryIsValid(x, sha);
    hide Request.Valid, Entry.Valid;
    AdmittedIff(registry, x, sha);
    AdmittedEvidence(registry, x, sha);
    InsertKeepsValid(registry, Entry(x.request, COMPLETE));
  }

  lemma InsertKeepsBound(registry: ProofRegistry, entry: Entry, sha: Hasher)
    requires HashBound(registry, sha) && entry.request.lineage.Bound(sha)
    ensures var r := ProofRegistry(Insert(registry.entries, entry, ProofIdOf));
            HashBound(r, sha) && forall e :: e in r.entries <==> e in registry.entries || e == entry
  {
    hide Insert, Lineage.Bound;
    var all := Insert(registry.entries, entry, ProofIdOf);
    forall e ensures e in all <==> e in registry.entries || e == entry {
      InsertMembers(registry.entries, entry, ProofIdOf, e);
    }
    forall i | 0 <= i < |all| ensures all[i].request.lineage.Bound(sha) {
      assert all[i] in all;
    }
  }

  /** The constructor accepts the new registry; it gains at most the admitted entry and loses none. */
  lemma AdmitKeepsValid(registry: ProofRegistry, x: Attempt, sha: Hasher)
    requires registry.Valid() && x.Valid(sha) && HashBound(registry, sha) && |x.decision.artifactIds| == |x.decision.hashes|
    ensures var r := Admit(registry, x, sha);
            && r.registry.Valid() && HashBound(r.registry, sha)
            && (forall e :: e in r.registry.entries <==> e in registry.entries || (r.state.Admitted? && e == Entry(x.request, COMPLETE)))
            && (!r.state.Admitted? ==> r.registry == registry)
  {
    hide AdmissionProblems, ProofRegistry.Valid, ProofRegistry.GetHistorical, Clashes, Sorted, Insert, Request.Authority, HashBound, Attempt.Valid, Lineage.Bound;
    if Admit(registry, x, sha).state.Admitted? {
      AdmitInserts(registry, x, sha);
      InsertKeepsBound(registry, Entry(x.request, COMPLETE), sha);
    }
  }

  lemma HistoricalIsUnique(registry: ProofRegistry, e: Entry)
    requires registry.Valid() && e in registry.entries
    ensures registry.GetHistorical(e.request.proofId) == Some(e)
  {
    hide ProofRegistry.Find, Sorted, Entry.Valid;
    var found := registry.GetHistorical(e.request.proofId).value;
    var i :| 0 <= i < |registry.entries| && registry.entries[i] == e;
    var j :| 0 <= j < |registry.entries| && registry.entries[j] == found;
    assert ProofIdOf(registry.entries[i]) == ProofIdOf(registry.entries[j]);
    assert Keys(registry.entries, ProofIdOf)[i] == Keys(registry.entries, ProofIdOf)[j];
  }

  lemma SoundTransfers(x: Attempt, again: Request, sha: Hasher)
    requires x.Valid(sha) && again.Valid() && again.Authority() == x.request.Authority()
    ensures x.(request := again).Valid(sha) && again.proofId == x.request.proofId
    ensures Sound(x, sha) ==> Sound(x.(request := again), sha)
  {
    assert again.lineage == x.request.lineage && again.verificationId == x.request.verificationId;
    hide Request.Valid, ChainSound, Unrevoked, SomeHit;
  }

  /** The registry holds an entry of this authority. */
  ghost predicate HasAuthority(registry: ProofRegistry, e: Entry, request: Request) {
    e in registry.entries && SameAuthority(e.request, request)
  }

  /** The same proof, verification and lineage, whoever admits it and when. */
  predicate SameAuthority(a: Request, b: Request) {
    a.proofId == b.proofId && a.verificationId == b.verificationId && a.lineage == b.lineage
  }

  lemma AuthorityIff(a: Request, b: Request)
    ensures a.Authority() == b.Authority() <==> SameAuthority(a, b)
  {
  }

  lemma HeldIsFound(registry: ProofRegistry, e: Entry, request: Request)
    requires registry.Valid() && HasAuthority(registry, e, request)
    ensures registry.GetHistorical(request.proofId) == Some(e)
  {
    hide ProofRegistry.Valid, ProofRegistry.GetHistorical, Request.Authority;
    HistoricalIsUnique(registry, e);
  }

  /** What any registry answers to a sound attempt whose authority it already holds: that entry, and no change. */
  lemma HeldIsAnswered(registry: ProofRegistry, y: Attempt, e: Entry, sha: Hasher)
    requires registry.Valid() && y.Valid(sha) && Sound(y, sha) && HasAuthority(registry, e, y.request)
    ensures |y.decision.artifactIds| == |y.decision.hashes|
    ensures Admit(registry, y, sha) == Outcome(AlreadyAdmitted, {ExactDuplicate}, Some(e), registry)
  {
    hide AdmissionProblems, ProofRegistry.Valid, ProofRegistry.GetHistorical, Clashes, Sorted, Sound, Attempt.Valid, Request.Authority;
    ProblemsClearIffSound(y, sha);
    AuthorityIff(e.request, y.request);
    HeldIsFound(registry, e, y.request);
  }

  /** ALREADY_ADMITTED exactly for a sound attempt whose authority some entry of the registry already has. */
  lemma AlreadyAdmittedIff(registry: ProofRegistry, y: Attempt, sha: Hasher)
    requires registry.Valid() && y.Valid(sha)
    ensures |y.decision.artifactIds| == |y.decision.hashes|
    ensures Admit(registry, y, sha).state.AlreadyAdmitted? <==> Sound(y, sha) && exists e :: HasAuthority(registry, e, y.request)
  {
    hide AdmissionProblems, ProofRegistry.Valid, Clashes, Sorted, Sound, Attempt.Valid, Request.Authority, ProofRegistry.Find;
    ProblemsClearIffSound(y, sha);
    if e :| Sound(y, sha) && HasAuthority(registry, e, y.request) {
      HeldIsAnswered(registry, y, e, sha);
    }
    if Admit(registry, y, sha).state.AlreadyAdmitted? {
      AuthorityIff(registry.GetHistorical(y.request.proofId).value.request, y.request);
      assert HasAuthority(registry, registry.GetHistorical(y.request.proofId).value, y.request);
    }
  }

  // ---------------------------------------------------------------- any sequence of attempts

  ghost predicate AllValid(attempts: seq<Attempt>, sha: Hasher) {
    forall i :: 0 <= i < |attempts| ==> attempts[i].Valid(sha) && |attempts[i].decision.artifactIds| == |attempts[i].decision.hashes|
  }

  ghost function AdmitAll(registry: ProofRegistry, attempts: seq<Attempt>, sha: Hasher): ProofRegistry
    requires AllValid(attempts, sha)
  {
    if attempts == [] then registry else Admit(AdmitAll(registry, Init(attempts), sha), Last(attempts), sha).registry
  }

  /** Every registry reachable from a good one is good and still holds everything it ever held. */
  lemma {:induction false} ReachableRegistry(registry: ProofRegistry, attempts: seq<Attempt>, sha: Hasher)
    requires registry.Valid() && HashBound(registry, sha) && AllValid(attempts, sha)
    ensures var r := AdmitAll(registry, attempts, sha);
            r.Valid() && HashBound(r, sha) && forall e :: e in registry.entries ==> e in r.entries
  {
    hide ProofRegistry.Valid, HashBound, Admit, Attempt.Valid;
    if attempts != [] {
      ReachableRegistry(registry, Init(attempts), sha);
      AdmitKeepsValid(AdmitAll(registry, Init(attempts), sha), Last(attempts), sha);
    }
  }

  lemma AllValidParts(first: seq<Attempt>, more: seq<Attempt>, sha: Hasher)
    ensures AllValid(first + more, sha) <==> AllValid(first, sha) && AllValid(more, sha)
  {
    hide Attempt.Valid;
    var all := first + more;
    if AllValid(all, sha) {
      assert forall i :: 0 <= i < |first| ==> all[i] == first[i];
      assert forall i :: 0 <= i < |more| ==> all[|first| + i] == more[i];
    }
  }

  lemma {:induction false} AdmitAllSplits(registry: ProofRegistry, first: seq<Attempt>, more: seq<Attempt>, sha: Hasher)
    requires AllValid(first, sha) && AllValid(more, sha)
    ensures AllValid(first + more, sha)
    ensures AdmitAll(registry, first + more, sha) == AdmitAll(AdmitAll(registry, first, sha), more, sha)
  {
    hide Attempt.Valid, Admit;
    AllValidParts(first, more, sha);
    if more == [] {
      assert first + more == first;
    } else {
      AdmitAllSplits(registry, first, Init(more), sha);
      assert Init(first + more) == first + Init(more);
    }
  }

  /** An entry stays through any later attempts, from any good registry. */
  lemma EntryStays(registry: ProofRegistry, first: seq<Attempt>, more: seq<Attempt>, e: Entry, sha: Hasher)
    requires registry.Valid() && HashBound(registry, sha) && AllValid(first, sha) && AllValid(more, sha)
    requires e in AdmitAll(registry, first, sha).entries
    ensures AllValid(first + more, sha) && e in AdmitAll(registry, first + more, sha).entries
    ensures AdmitAll(registry, first + more, sha).Valid()
  {
    hide ProofRegistry.Valid, HashBound, Attempt.Valid, AdmitAll, AllValid;
    AdmitAllSplits(registry, first, more, sha);
    ReachableRegistry(registry, first, sha);
    ReachableRegistry(AdmitAll(registry, first, sha), more, sha);
  }

  /** The attempt is admitted after the first ones. */
  ghost predicate AdmittedAfter(registry: ProofRegistry, first: seq<Attempt>, x: Attempt, sha: Hasher)
    requires AllValid(first, sha)
  {
    && x.Valid(sha) && |x.decision.artifactIds| == |x.decision.hashes|
    && Admit(AdmitAll(registry, first, sha), x, sha).state.Admitted?
  }

  lemma AdmittedIsHeld(registry: ProofRegistry, first: seq<Attempt>, x: Attempt, sha: Hasher)
    requires registry.Valid() && HashBound(registry, sha) && AllValid(first, sha) && AdmittedAfter(registry, first, x, sha)
    ensures AllValid(first + [x], sha) && Sound(x, sha)
    ensures Entry(x.request, COMPLETE) in AdmitAll(registry, first + [x], sha).entries
  {
    hide ProofRegistry.Valid, HashBound, Attempt.Valid, Admit, Sound;
    assert Init(first + [x]) == first;
    ReachableRegistry(registry, first, sha);
    AdmitKeepsValid(AdmitAll(registry, first, sha), x, sha);
    AdmittedIff(AdmitAll(registry, first, sha), x, sha);
  }

  /**
    Resubmission is idempotent at any later time: once an attempt was admitted, whatever attempts follow, a
    sound attempt of the same authority, whatever its bookkeeping, is answered with that very entry and
    changes nothing. Resubmitting what was admitted is such an attempt.
  */
  lemma ResubmissionIsIdempotent(registry: ProofRegistry, first: seq<Attempt>, x: Attempt, more: seq<Attempt>, y: Attempt, sha: Hasher)
    requires registry.Valid() && HashBound(registry, sha) && AllValid(first, sha) && AllValid(more, sha)
    requires AdmittedAfter(registry, first, x, sha)
    requires y.Valid(sha) && SameAuthority(x.request, y.request) && (Sound(y, sha) || y == x.(request := y.request))
    ensures AllValid(first + [x] + more, sha) && |y.decision.artifactIds| == |y.decision.hashes|
    ensures var later := AdmitAll(registry, first + [x] + more, sha);
            Admit(later, y, sha) == Outcome(AlreadyAdmitted, {ExactDuplicate}, Some(Entry(x.request, COMPLETE)), later)
  {
    hide ProofRegistry.Valid, HashBound, Attempt.Valid, Admit, AllValid, AdmitAll, Sound, Request.Authority;
    var e := Entry(x.request, COMPLETE);
    AdmittedIsHeld(registry, first, x, sha);
    EntryStays(registry, first + [x], more, e, sha);
    RepeatIsSound(x, y, sha);
    HeldIsAnswered(AdmitAll(registry, first + [x] + more, sha), y, e, sha);
  }

  lemma RepeatIsSound(x: Attempt, y: Attempt, sha: Hasher)
    requires x.Valid(sha) && y.Valid(sha) && Sound(x, sha) && SameAuthority(x.request, y.request)
    requires Sound(y, sha) || y == x.(request := y.request)
    ensures Sound(y, sha)
  {
    assert y.request.Valid() by { hide Request.Valid, Candidate.Valid, Verification.Valid, ReviewDecision.Valid, EvidenceRegistry.Valid; }
    hide Attempt.Valid, Sound, Request.Authority, Request.Valid;
    AuthorityIff(x.request, y.request);
    if !Sound(y, sha) {
      SoundTransfers(x, y.request, sha);
    }
  }

  lemma EmptyRegistry(sha: Hasher)
    ensures ProofRegistry([]).Valid() && HashBound(ProofRegistry([]), sha)
  {
  }
}
