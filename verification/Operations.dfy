/**
  The governance desk in operation: admissions, revocations, persists and reloads in any order, from
  nothing and an empty store. What the desk holds in memory is handed to the store by the desk alone.
*/
module Operations {
  import opened Prelude
  import opened Sorting
  import opened Evidence
  import opened Registration
  import opened Registry
  import opened RegistryRuns
  import opened DurableProofs
  import opened Payload
  import opened Store
  import opened TermsService
  import opened Governance

  datatype Desk = Desk(memory: DurableState, row: Option<Row>)

  const OPENING := Desk(EMPTY_STATE, None)

  datatype Operation =
    | AdmitProof(attempt: Attempt)
    | RecordRevocation(revocation: Revocation)
    | PersistState
    | Reload

  predicate Wellformed(op: Operation, sha: Hasher) {
    op.AdmitProof? ==> op.attempt.Valid(sha) && |op.attempt.decision.artifactIds| == |op.attempt.decision.hashes|
  }

  ghost predicate AllWellformed(ops: seq<Operation>, sha: Hasher) {
    forall i :: 0 <= i < |ops| ==> Wellformed(ops[i], sha)
  }

  /** The state with one more revocation; the constructor refuses a reused identity or a contradiction. */
  function WithRevocation(s: DurableState, r: Revocation): DurableState {
    var more := s.(revocations := Sorted(s.revocations + [r], RevocationIdOf));
    if more.Valid() then more else s
  }

  function Operate(desk: Desk, op: Operation, h: Hashes): Desk
    requires Wellformed(op, h.sha)
  {
    match op
    case AdmitProof(x) => desk.(memory := desk.memory.(registry := Admit(desk.memory.registry, x, h.sha).registry))
    case RecordRevocation(r) => desk.(memory := WithRevocation(desk.memory, r))
    case PersistState => desk.(row := AfterPersist(desk.row, desk.memory, h))
    case Reload => (match LoadOf(desk.row, h) case Ok(s) => desk.(memory := s) case Err(_) => desk)
  }

  ghost function After(ops: seq<Operation>, h: Hashes): Desk
    requires AllWellformed(ops, h.sha)
  {
    if ops == [] then OPENING else Operate(After(Init(ops), h), Last(ops), h)
  }

  /** Some admission among the operations asked for exactly this entry and was sound. */
  ghost predicate AdmittedIn(e: Entry, ops: seq<Operation>, sha: Hasher) {
    exists i :: 0 <= i < |ops| && ops[i].AdmitProof? && ops[i].attempt.request == e.request && Sound(ops[i].attempt, sha)
  }

  /** What every sequence of operations keeps. */
  ghost predicate InOrder(desk: Desk, ops: seq<Operation>, h: Hashes) {
    && desk.memory.Valid() && HashBound(desk.memory.registry, h.sha)
    && LoadOf(desk.row, h).Ok? && Grows(LoadOf(desk.row, h).value, desk.memory)
    && forall e :: e in desk.memory.registry.entries ==> AdmittedIn(e, ops, h.sha)
  }

  // ---------------------------------------------------------------- one operation

  lemma AdmittedStays(e: Entry, ops: seq<Operation>, op: Operation, sha: Hasher)
    requires AdmittedIn(e, ops, sha)
    ensures AdmittedIn(e, ops + [op], sha)
  {
    hide Sound;
    var i :| 0 <= i < |ops| && ops[i].AdmitProof? && ops[i].attempt.request == e.request && Sound(ops[i].attempt, sha);
    assert (ops + [op])[i] == ops[i];
  }

  lemma ValidParts(s: DurableState)
    requires s.Valid()
    ensures s.registry.Valid()
    ensures forall registry: ProofRegistry :: registry.Valid() ==> s.(registry := registry).Valid()
  {
    hide ProofRegistry.Valid, Sorted, Consistent, Revocation.Valid;
  }

  lemma AdmitInOrder(desk: Desk, ops: seq<Operation>, x: Attempt, h: Hashes)
    requires InOrder(desk, ops, h) && Wellformed(AdmitProof(x), h.sha)
    ensures InOrder(Operate(desk, AdmitProof(x), h), ops + [AdmitProof(x)], h)
  {
    hide DurableState.Valid, ProofRegistry.Valid, HashBound, LoadOf, Admit, Attempt.Valid, Sound, AdmittedIn;
    var registry := desk.memory.registry;
    ValidParts(desk.memory);
    AdmitKeepsValid(registry, x, h.sha);
    AdmittedIff(registry, x, h.sha);
    forall e | e in Admit(registry, x, h.sha).registry.entries ensures AdmittedIn(e, ops + [AdmitProof(x)], h.sha) {
      if e in registry.entries {
        AdmittedStays(e, ops, AdmitProof(x), h.sha);
      } else {
        JustAdmitted(e, ops, x, h.sha);
      }
    }
  }

  lemma JustAdmitted(e: Entry, ops: seq<Operation>, x: Attempt, sha: Hasher)
    requires x.request == e.request && Sound(x, sha)
    ensures AdmittedIn(e, ops + [AdmitProof(x)], sha)
  {
    hide Sound;
    assert (ops + [AdmitProof(x)])[|ops|] == AdmitProof(x);
  }

  lemma WithRevocationGrows(s: DurableState, r: Revocation)
    requires s.Valid()
    ensures var t := WithRevocation(s, r);
            t.Valid() && t.registry == s.registry && Grows(s, t)
  {
    hide DurableState.Valid;
    SortedKeepsItems(s.revocations + [r], RevocationIdOf);
    var more := Sorted(s.revocations + [r], RevocationIdOf);
    hide Sorted;
    forall x | x in s.revocations ensures x in more {
      assert x in s.revocations + [r];
      assert x in multiset(s.revocations + [r]);
    }
  }

  lemma RevokeInOrder(desk: Desk, ops: seq<Operation>, r: Revocation, h: Hashes)
    requires InOrder(desk, ops, h)
    ensures InOrder(Operate(desk, RecordRevocation(r), h), ops + [RecordRevocation(r)], h)
  {
    hide DurableState.Valid, HashBound, LoadOf, WithRevocation, AdmittedIn;
    WithRevocationGrows(desk.memory, r);
    forall e | e in desk.memory.registry.entries ensures AdmittedIn(e, ops + [RecordRevocation(r)], h.sha) {
      AdmittedStays(e, ops, RecordRevocation(r), h.sha);
    }
  }

  /** A desk in order is never refused: what it holds extends what is stored and every material hash matches. */
  lemma PersistIsAccepted(desk: Desk, ops: seq<Operation>, h: Hashes)
    requires InOrder(desk, ops, h)
    ensures PersistOf(desk.row, desk.memory, h).Ok?
    ensures LoadOf(AfterPersist(desk.row, desk.memory, h), h) == Ok(desk.memory)
  {
    hide DurableState.Valid, HashBound, LoadOf, PersistOf, AdmittedIn, AllMaterialMatches, Grows;
    BoundMatches(desk.memory, h.sha);
    PersistIff(desk.row, desk.memory, h);
    PersistThenLoad(desk.row, desk.memory, h);
  }

  lemma PersistInOrder(desk: Desk, ops: seq<Operation>, h: Hashes)
    requires InOrder(desk, ops, h)
    ensures InOrder(Operate(desk, PersistState, h), ops + [PersistState], h)
  {
    hide DurableState.Valid, HashBound, LoadOf, AfterPersist, PersistOf, AdmittedIn;
    PersistIsAccepted(desk, ops, h);
    forall e | e in desk.memory.registry.entries ensures AdmittedIn(e, ops + [PersistState], h.sha) {
      AdmittedStays(e, ops, PersistState, h.sha);
    }
  }

  lemma BoundPart(s: DurableState, t: DurableState, sha: Hasher)
    requires HashBound(t.registry, sha) && Grows(s, t)
    ensures HashBound(s.registry, sha)
  {
    hide Lineage.Bound;
    forall i | 0 <= i < |s.registry.entries| ensures s.registry.entries[i].request.lineage.Bound(sha) {
      assert s.registry.entries[i] in t.registry.entries;
      var j :| 0 <= j < |t.registry.entries| && t.registry.entries[j] == s.registry.entries[i];
    }
  }

  lemma ReloadInOrder(desk: Desk, ops: seq<Operation>, h: Hashes)
    requires InOrder(desk, ops, h)
    ensures InOrder(Operate(desk, Reload, h), ops + [Reload], h)
  {
    hide DurableState.Valid, HashBound, LoadOf, AdmittedIn;
    var s := LoadOf(desk.row, h).value;
    LoadedIsValid(desk.row, h);
    BoundPart(s, desk.memory, h.sha);
    forall e | e in s.registry.entries ensures AdmittedIn(e, ops + [Reload], h.sha) {
      AdmittedStays(e, ops, Reload, h.sha);
    }
  }

  // ---------------------------------------------------------------- any operations

  lemma OpeningInOrder(h: Hashes)
    ensures InOrder(OPENING, [], h)
  {
    EmptyIsValid(h.sha);
    EmptyRegistry(h.sha);
  }

  /** Any admissions, revocations, persists and reloads in any order keep the desk in order. */
  lemma {:induction false} DeskStaysInOrder(ops: seq<Operation>, h: Hashes)
    requires AllWellformed(ops, h.sha)
    ensures InOrder(After(ops, h), ops, h)
  {
    hide InOrder, Operate, Wellformed;
    if ops == [] {
      OpeningInOrder(h);
    } else {
      var before, op := Init(ops), Last(ops);
      DeskStaysInOrder(before, h);
      OperationInOrder(After(before, h), before, op, h);
      assert before + [op] == ops;
    }
  }

  lemma OperationInOrder(desk: Desk, ops: seq<Operation>, op: Operation, h: Hashes)
    requires InOrder(desk, ops, h) && Wellformed(op, h.sha)
    ensures InOrder(Operate(desk, op, h), ops + [op], h)
  {
    hide InOrder, Operate, Wellformed;
    match op
    case AdmitProof(x) => AdmitInOrder(desk, ops, x, h);
    case RecordRevocation(r) => RevokeInOrder(desk, ops, r, h);
    case PersistState => PersistInOrder(desk, ops, h);
    case Reload => ReloadInOrder(desk, ops, h);
  }

  /** Along any operations every persist is accepted and stores exactly what the desk holds. */
  lemma EveryPersistIsAccepted(ops: seq<Operation>, h: Hashes)
    requires AllWellformed(ops, h.sha)
    ensures var desk := After(ops, h);
            PersistOf(desk.row, desk.memory, h).Ok? && LoadOf(Operate(desk, PersistState, h).row, h) == Ok(desk.memory)
  {
    hide InOrder, After, PersistOf, LoadOf, AfterPersist;
    DeskStaysInOrder(ops, h);
    PersistIsAccepted(After(ops, h), ops, h);
  }

  /** An operation whose attempt was sound, for the entry these terms come from, which is stored and not revoked. */
  ghost predicate Warrants(x: Attempt, e: Entry, t: Terms, request: ServiceRequest, stored: DurableState, sha: Hasher) {
    && Sound(x, sha) && x.request == e.request && e in stored.registry.entries
    && t.proofId == e.request.proofId && t.materialHash == e.request.lineage.materialHash
    && e.request.lineage.applicability == request.applicability && !EntryRevoked(e, stored.revocations)
  }

  /**
    Whatever was done before, terms are offered only where some admission among the operations was a sound
    attempt for exactly the requested scope, and its entry is stored and not revoked.
  */
  lemma TermsHaveProvenance(ops: seq<Operation>, request: ServiceRequest, h: Hashes, t: Terms)
    requires AllWellformed(ops, h.sha)
    requires Evaluate(After(ops, h).row, request, h) == Ok(ServiceResult(TermsAvailable, Some(t)))
    ensures LoadOf(After(ops, h).row, h).Ok?
    ensures exists i, e :: 0 <= i < |ops| && ops[i].AdmitProof?
                        && Warrants(ops[i].attempt, e, t, request, LoadOf(After(ops, h).row, h).value, h.sha)
  {
    hide LoadOf, Evaluate, After, Sound, EntryRevoked, Matches, DurableState.Valid, HashBound, AdmittedIn;
    var desk := After(ops, h);
    DeskStaysInOrder(ops, h);
    TermsAreBound(desk.row, request, h, t);
    var s := LoadOf(desk.row, h).value;
    var e :| InForce(s, request.applicability, request.evaluatedAt, e)
          && t.proofId == e.request.proofId && t.materialHash == e.request.lineage.materialHash;
    assert e in Matches(s.registry.entries, request.applicability);
    AdmissionOf(e, ops, h.sha);
    var i :| 0 <= i < |ops| && ops[i].AdmitProof? && ops[i].attempt.request == e.request && Sound(ops[i].attempt, h.sha);
    assert Warrants(ops[i].attempt, e, t, request, s, h.sha);
  }

  lemma AdmissionOf(e: Entry, ops: seq<Operation>, sha: Hasher)
    requires AdmittedIn(e, ops, sha)
    ensures exists i :: 0 <= i < |ops| && ops[i].AdmitProof? && ops[i].attempt.request == e.request && Sound(ops[i].attempt, sha)
  {
    hide Sound;
  }

  // ---------------------------------------------------------------- revocation

  /** One entry of a scope is revoked by a recorded revocation: the scope is dead. */
  lemma RecordedIsDead(s: DurableState, e: Entry, r: Revocation)
    requires s.Valid() && e in s.registry.entries && r in s.revocations && EntryRevoked(e, [r])
    ensures Rank(Lookup(s.registry, e.request.lineage.applicability, s.revocations).state) >= 2
  {
    hide ProofRegistry.Valid, Sorted, Consistent, Revocation.Valid, Hits;
    var matches := Matches(s.registry.entries, e.request.lineage.applicability);
    assert e in matches;
    hide Matches;
    RevokedPersists([r], s.revocations, e);
    hide EntryRevoked;
    assert |matches| == 1 ==> matches[0] == e;
  }

  lemma PersistKeepsDead(row: Option<Row>, state: DurableState, request: ServiceRequest, h: Hashes)
    requires state.Valid() && Dead(row, request.applicability, h)
    ensures Dead(AfterPersist(row, state, h), request.applicability, h)
  {
    hide DurableState.Valid, Dead, AfterPersist, Evaluate;
    var states := [state];
    assert Init(states) == [];
    assert AllStatesValid(states);
    assert AfterPersists(row, states, h) == AfterPersist(AfterPersists(row, [], h), state, h);
    RevocationIsPermanent(row, states, request, h);
  }

  lemma WellformedParts(ops: seq<Operation>, op: Operation, sha: Hasher)
    requires AllWellformed(ops, sha) && Wellformed(op, sha)
    ensures AllWellformed(ops + [op], sha)
  {
    hide Wellformed;
  }

  lemma AfterSnoc(ops: seq<Operation>, op: Operation, h: Hashes)
    requires AllWellformed(ops, h.sha) && Wellformed(op, h.sha)
    ensures AllWellformed(ops + [op], h.sha) && After(ops + [op], h) == Operate(After(ops, h), op, h)
  {
    hide Wellformed, Operate;
    WellformedParts(ops, op, h.sha);
    assert Init(ops + [op]) == ops;
  }

  /** Once a scope is dead in the store, no further operations bring it back. */
  lemma {:induction false} DeadStaysDead(ops: seq<Operation>, more: seq<Operation>, request: ServiceRequest, h: Hashes)
    requires AllWellformed(ops, h.sha) && AllWellformed(more, h.sha) && Dead(After(ops, h).row, request.applicability, h)
    ensures AllWellformed(ops + more, h.sha) && Dead(After(ops + more, h).row, request.applicability, h)
  {
    hide Wellformed, Dead, After, Operate, InOrder;
    if more == [] {
      assert ops + more == ops;
    } else {
      var op := Last(more);
      DeadStaysDead(ops, Init(more), request, h);
      AfterSnoc(ops + Init(more), op, h);
      DeskStaysInOrder(ops + Init(more), h);
      OperateKeepsDead(After(ops + Init(more), h), ops + Init(more), op, request, h);
      assert ops + more == ops + Init(more) + [op];
    }
  }

  lemma OperateKeepsDead(desk: Desk, ops: seq<Operation>, op: Operation, request: ServiceRequest, h: Hashes)
    requires InOrder(desk, ops, h) && Wellformed(op, h.sha) && Dead(desk.row, request.applicability, h)
    ensures Dead(Operate(desk, op, h).row, request.applicability, h)
  {
    hide DurableState.Valid, HashBound, LoadOf, Dead, Admit, WithRevocation, AfterPersist, Attempt.Valid, Grows;
    if op.PersistState? {
      PersistKeepsDead(desk.row, desk.memory, request, h);
    }
  }

  /**
    Revocation is final: once a revocation of an entry is recorded and persisted, no further admissions,
    revocations, persists or reloads let any request of its scope obtain terms.
  */
  lemma RevocationIsFinal(ops: seq<Operation>, r: Revocation, more: seq<Operation>, e: Entry, request: ServiceRequest, h: Hashes)
    requires AllWellformed(ops, h.sha) && AllWellformed(more, h.sha)
    requires e in After(ops, h).memory.registry.entries && EntryRevoked(e, [r])
    requires r in WithRevocation(After(ops, h).memory, r).revocations
    requires request.applicability == e.request.lineage.applicability
    ensures var all := ops + [RecordRevocation(r)] + [PersistState] + more;
            && AllWellformed(all, h.sha)
            && Evaluate(After(all, h).row, request, h).Ok? && !Evaluate(After(all, h).row, request, h).value.state.TermsAvailable?
  {
    hide After, Evaluate, LoadOf, WithRevocation, InOrder, Matches, EntryRevoked, AfterPersist, PersistOf, DurableState.Valid, Lookup, Rank;
    var desk := After(ops, h);
    var recorded := ops + [RecordRevocation(r)];
    AfterSnoc(ops, RecordRevocation(r), h);
    DeskStaysInOrder(ops, h);
    InOrderIsValid(desk, ops, h);
    WithRevocationGrows(desk.memory, r);
    var s := WithRevocation(desk.memory, r);
    EveryPersistIsAccepted(recorded, h);
    AfterSnoc(recorded, PersistState, h);
    RecordedIsDead(s, e, r);
    assert Dead(After(recorded + [PersistState], h).row, request.applicability, h);
    DeadStaysDead(recorded + [PersistState], more, request, h);
    DeadGivesNoTerms(After(recorded + [PersistState] + more, h).row, request, h);
  }

  lemma InOrderIsValid(desk: Desk, ops: seq<Operation>, h: Hashes)
    requires InOrder(desk, ops, h)
    ensures desk.memory.Valid()
  {
    hide DurableState.Valid, HashBound, LoadOf, AdmittedIn;
  }
}
