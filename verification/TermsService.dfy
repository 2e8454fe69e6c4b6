/** Consuming a proof for one exact capability (broker/deriv_proof_consumption.py). */
module Consumption {
  import opened Prelude
  import opened EvidenceReview
  import opened Registration
  import opened Registry
  import opened DurableProofs

  /** Expected lineage and scope; the scope is the lineage's applicability. */
  datatype ConsumptionRequest = ConsumptionRequest(schemaVersion: int, proofId: string, admissionId: string,
                                                   verificationId: string, lineage: Lineage, evaluatedAt: int)

  datatype ConsumptionState = ProofAvailable | ProofUnavailable | ProofRevokedState | ProofConflict

  datatype ConsumptionReason =
    | ExactActiveProof | NoMatchingProof | ConsumedProofRevoked | ConsumedCandidateRevoked | ConsumedVerificationRevoked
    | ConsumedVerificationSuperseded | ConsumedScopeMismatch | ConsumedHashMismatch | ConsumedLineageMismatch
    | RegistryConflict | RevocationConflict | MalformedRegistry | NotYetEffective | Expired

  datatype ConsumptionResult = ConsumptionResult(state: ConsumptionState, reasons: set<ConsumptionReason>, entry: Option<Entry>)

  function RevocationReasons(e: Entry, revocations: seq<Revocation>): set<ConsumptionReason> {
    Flag(SomeHit(revocations, ProofTarget, e.request.proofId), ConsumedProofRevoked)
    + Flag(SomeHit(revocations, CandidateTarget, e.request.lineage.candidateId), ConsumedCandidateRevoked)
    + Flag(SomeReason(revocations, e.request.verificationId, true), ConsumedVerificationSuperseded)
    + Flag(SomeReason(revocations, e.request.verificationId, false), ConsumedVerificationRevoked)
  }

  lemma RevocationReasonsStep(e: Entry, revocations: seq<Revocation>, n: nat)
    requires n < |revocations|
    ensures RevocationReasons(e, revocations[..n + 1]) == RevocationReasons(e, revocations[..n]) +
            var r := revocations[n];
            Flag(Hits(r, ProofTarget, e.request.proofId), ConsumedProofRevoked)
            + Flag(Hits(r, CandidateTarget, e.request.lineage.candidateId), ConsumedCandidateRevoked)
            + Flag(Hits(r, VerificationTarget, e.request.verificationId) && r.reason.Superseded?, ConsumedVerificationSuperseded)
            + Flag(Hits(r, VerificationTarget, e.request.verificationId) && !r.reason.Superseded?, ConsumedVerificationRevoked)
  {
    HitStep(revocations, n, CandidateTarget, e.request.lineage.candidateId);
    HitStep(revocations, n, ProofTarget, e.request.proofId);
    ReasonStep(revocations, n, e.request.verificationId, true);
    ReasonStep(revocations, n, e.request.verificationId, false);
    hide SomeHit, SomeReason, Hits;
  }

  /** The loop of _revocation_reasons. */
  method CollectRevocationReasons(e: Entry, revocations: seq<Revocation>) returns (reasons: set<ConsumptionReason>)
    ensures reasons == RevocationReasons(e, revocations)
  {
    reasons := {};
    for n := 0 to |revocations|
      invariant reasons == RevocationReasons(e, revocations[..n])
    {
      RevocationReasonsStep(e, revocations, n);
      hide RevocationReasons;
      var record := revocations[n];
      if Hits(record, ProofTarget, e.request.proofId) {
        reasons := reasons + {ConsumedProofRevoked};
      } else if Hits(record, CandidateTarget, e.request.lineage.candidateId) {
        reasons := reasons + {ConsumedCandidateRevoked};
      } else if Hits(record, VerificationTarget, e.request.verificationId) {
        reasons := reasons + {if record.reason.Superseded? then ConsumedVerificationSuperseded else ConsumedVerificationRevoked};
      }
    }
    assert revocations[..|revocations|] == revocations;
  }

  function MismatchReasons(request: ConsumptionRequest, e: Entry): set<ConsumptionReason> {
    var l, m := request.lineage, e.request.lineage;
    Flag(l.materialHash != m.materialHash || l.hashes != m.hashes, ConsumedHashMismatch)
    + Flag(request.proofId != e.request.proofId || request.admissionId != e.request.admissionId
           || request.verificationId != e.request.verificationId
           || l.(materialHash := m.materialHash, hashes := m.hashes, applicability := m.applicability) != m, ConsumedLineageMismatch)
    + Flag(request.evaluatedAt < m.validFrom, NotYetEffective)
    + Flag(request.evaluatedAt > m.validUntil, Expired)
  }

  /** validate_authoritative_proof_for_capability */
  function Consume(registry: ProofRegistry, request: ConsumptionRequest, revocations: seq<Revocation>): ConsumptionResult {
    if !registry.Valid() then ConsumptionResult(ProofUnavailable, {MalformedRegistry}, None)
    else if !Distinct(RevocationIds(revocations)) || !Consistent(revocations) then
      ConsumptionResult(ProofConflict, {RevocationConflict}, None)
    else
      var lookup := Lookup(registry, request.lineage.applicability, revocations);
      match lookup.state
      case ConflictingState => ConsumptionResult(ProofConflict, {RegistryConflict}, None)
      case NoEntry =>
        ConsumptionResult(ProofUnavailable, {if registry.entries == [] then NoMatchingProof else ConsumedScopeMismatch}, None)
      case RevokedEntry =>
        var reasons := RevocationReasons(lookup.entry.value, revocations);
        ConsumptionResult(ProofRevokedState, if reasons == {} then {ConsumedProofRevoked} else reasons, None)
      case ActiveEntry =>
        var reasons := MismatchReasons(request, lookup.entry.value);
        if reasons != {} then ConsumptionResult(ProofUnavailable, reasons, None)
        else ConsumptionResult(ProofAvailable, {ExactActiveProof}, lookup.entry)
  }

  /** A revoked entry always has a stated reason: the fallback reason is never used. */
  lemma RevokedHasReasons(e: Entry, revocations: seq<Revocation>)
    requires EntryRevoked(e, revocations)
    ensures RevocationReasons(e, revocations) != {}
  {
    assert SomeHit(revocations, VerificationTarget, e.request.verificationId) <==>
           SomeReason(revocations, e.request.verificationId, true) || SomeReason(revocations, e.request.verificationId, false);
    hide SomeHit, SomeReason;
    var reasons := RevocationReasons(e, revocations);
    assert SomeHit(revocations, ProofTarget, e.request.proofId) ==> ConsumedProofRevoked in reasons;
    assert SomeHit(revocations, CandidateTarget, e.request.lineage.candidateId) ==> ConsumedCandidateRevoked in reasons;
    assert SomeReason(revocations, e.request.verificationId, true) ==> ConsumedVerificationSuperseded in reasons;
    assert SomeReason(revocations, e.request.verificationId, false) ==> ConsumedVerificationRevoked in reasons;
  }
}

/** Offline execution terms over durable proofs (broker/deriv_execution_terms.py, broker/deriv_execution_terms_service.py). */
module TermsService {
  import opened Prelude
  import opened Texts
  import opened Evidence
  import opened EvidenceReview
  import opened Registration
  import opened Registry
  import opened DurableProofs
  import opened Consumption
  import opened Payload
  import opened Store

  datatype Propositions = Propositions(stake: real, multiplier: real, stopLoss: real, takeProfit: real, maximumLoss: Option<real>)
  {
    predicate Valid() {
      && stake > 0.0 && multiplier > 0.0 && stopLoss >= 0.0 && takeProfit >= 0.0
      && (maximumLoss.Some? ==> maximumLoss.value >= 0.0)
    }
  }

  datatype Terms = Terms(environment: string, accountScope: Option<string>, accountCurrency: string, symbol: string,
                         contractType: string, stake: real, multiplier: real, stopLoss: real, takeProfit: real,
                         maximumLoss: real, proofId: string, materialHash: string, lossModelId: string,
                         lossModelVersion: int, applicability: Applicability)

  datatype ServiceState =
    | TermsAvailable | ServiceUnavailable | ServiceRevoked | ServiceConflict | StoreUnavailable
    | ModelUnsupported | FinancialInputInvalid | RiskBoundExceeded

  datatype ServiceResult = ServiceResult(state: ServiceState, terms: Option<Terms>)

  datatype ServiceRequest = ServiceRequest(applicability: Applicability, evaluatedAt: int, authorizedRisk: real,
                                           propositions: Option<Propositions>, accountScope: Option<string>)
  {
    predicate Valid() {
      && applicability.Complete() && authorizedRisk > 0.0 && OptionalText(accountScope)
      && (propositions.Some? ==> propositions.value.Valid())
    }
  }

  predicate Monetary(o: Output, semantic: OutputSemantic) {
    o.semantic == semantic && o.unit.AccountCurrencyAmount? && o.binding.AccountCurrencyBinding?
  }

  predicate Present(s: Option<string>) {
    s.Some? && s.value != ""
  }

  /** The semantics establish loss, profit and maximum loss in account currency, and allow the multiplier. */
  predicate Supports(s: Semantics, multiplier: real) {
    && Monetary(s.output, MonetaryLoss)
    && s.takeProfitOutput.Some? && s.maximumLossOutput.Some?
    && Monetary(s.takeProfitOutput.value, MonetaryProfit) && Monetary(s.maximumLossOutput.value, MaximumMonetaryLoss)
    && Present(s.takeProfitSemanticId) && Present(s.maximumLossSemanticId)
    && s.allowedMultipliers != [] && multiplier in s.allowedMultipliers
  }

  function OrEmpty(s: Option<string>): string {
    if s.Some? then s.value else ""
  }

  /** What the terms constructor accepts beyond fields copied from an already valid proof and valid propositions. */
  predicate ContractTypeValid(t: Terms) {
    t.contractType in {"MULTUP", "MULTDOWN"}
  }

  function TermsFor(e: Entry, p: Propositions, maximumLoss: real, accountScope: Option<string>): Terms {
    var l := e.request.lineage;
    var a := l.applicability;
    Terms(OrEmpty(a.environment), accountScope, OrEmpty(a.accountCurrency), OrEmpty(a.symbol), OrEmpty(a.contractFamily),
          p.stake, p.multiplier, p.stopLoss, p.takeProfit, maximumLoss, e.request.proofId, l.materialHash,
          l.lossModelId, l.lossModelVersion, a)
  }

  /** evaluate_synthetic_deriv_execution_terms, its states already mapped to the service's. Err is the constructor's exception. */
  function EvaluateTerms(proof: ConsumptionResult, semantics: Semantics, propositions: Option<Propositions>,
                         authorizedRisk: real, accountScope: Option<string>, sha: Hasher): Result<ServiceResult> {
    if !proof.state.ProofAvailable? || proof.entry.None? then Ok(ServiceResult(ServiceUnavailable, None)) else
    var e := proof.entry.value;
    if e.request.lineage.semantics != Some(semantics) || sha(semantics) != e.request.lineage.materialHash then
      Ok(ServiceResult(ServiceUnavailable, None))
    else if propositions.None? || !Supports(semantics, propositions.value.multiplier) then Ok(ServiceResult(ModelUnsupported, None))
    else if propositions.value.maximumLoss.None? then Ok(ServiceResult(FinancialInputInvalid, None))
    else if propositions.value.maximumLoss.value > authorizedRisk then Ok(ServiceResult(RiskBoundExceeded, None))
    else
      var terms := TermsFor(e, propositions.value, propositions.value.maximumLoss.value, accountScope);
      if ContractTypeValid(terms) then Ok(ServiceResult(TermsAvailable, Some(terms)))
      else Err("contract_type must be MULTUP or MULTDOWN")
  }

  /** evaluate: reload, look up, consume, then price. */
  function Evaluate(row: Option<Row>, request: ServiceRequest, h: Hashes): Result<ServiceResult> {
    match LoadOf(row, h)
    case Err(_) => Ok(ServiceResult(StoreUnavailable, None))
    case Ok(durable) =>
      var lookup := Lookup(durable.registry, request.applicability, durable.revocations);
      if lookup.state.NoEntry? then Ok(ServiceResult(ServiceUnavailable, None))
      else if lookup.state.ConflictingState? then Ok(ServiceResult(ServiceConflict, None))
      else if lookup.entry.None? then Ok(ServiceResult(ServiceUnavailable, None))
      else
        var e := lookup.entry.value;
        var proof := Consume(durable.registry, Expected(e, request.applicability, request.evaluatedAt), durable.revocations);
        match proof.state
        case ProofRevokedState => Ok(ServiceResult(ServiceRevoked, None))
        case ProofConflict => Ok(ServiceResult(ServiceConflict, None))
        case ProofUnavailable => Ok(ServiceResult(ServiceUnavailable, None))
        case ProofAvailable =>
          if e.request.lineage.semantics.None? then Ok(ServiceResult(ModelUnsupported, None))
          else EvaluateTerms(proof, e.request.lineage.semantics.value, request.propositions, request.authorizedRisk, request.accountScope, h.sha)
  }

  // ---------------------------------------------------------------- when terms are offered

  /** The loaded state holds exactly this one unrevoked entry for the scope, and it is in force. */
  ghost predicate InForce(s: DurableState, a: Applicability, at: int, e: Entry) {
    && Matches(s.registry.entries, a) == [e] && !EntryRevoked(e, s.revocations)
    && e.request.lineage.validFrom <= at <= e.request.lineage.validUntil
  }

  /** The propositions fit the entry's semantics and stay within the authorised risk. */
  ghost predicate Priced(e: Entry, request: ServiceRequest) {
    && e.request.lineage.semantics.Some? && request.propositions.Some?
    && Suits(e.request.lineage.semantics.value, request.propositions.value.multiplier)
    && request.propositions.value.maximumLoss.Some?
    && request.propositions.value.maximumLoss.value <= request.authorizedRisk
    && e.request.lineage.applicability.contractFamily in {Some("MULTUP"), Some("MULTDOWN")}
  }

  /** An amount of account currency of this meaning. */
  predicate Amounts(o: Output, semantic: OutputSemantic) {
    o.semantic == semantic && o.unit == AccountCurrencyAmount && o.binding == AccountCurrencyBinding
  }

  /**
    The semantics state the loss, the profit and the maximum loss as amounts of account currency, name the
    last two, and allow this multiplier.
  */
  predicate Suits(s: Semantics, multiplier: real) {
    && Amounts(s.output, MonetaryLoss)
    && s.takeProfitOutput.Some? && Amounts(s.takeProfitOutput.value, MonetaryProfit)
    && s.maximumLossOutput.Some? && Amounts(s.maximumLossOutput.value, MaximumMonetaryLoss)
    && s.takeProfitSemanticId.Some? && s.takeProfitSemanticId.value != ""
    && s.maximumLossSemanticId.Some? && s.maximumLossSemanticId.value != ""
    && multiplier in s.allowedMultipliers
  }

  lemma SuitsIff(s: Semantics, multiplier: real)
    ensures Supports(s, multiplier) <==> Suits(s, multiplier)
  {
  }

  lemma MismatchClear(request: ConsumptionRequest, e: Entry)
    requires request.proofId == e.request.proofId && request.admissionId == e.request.admissionId
    requires request.verificationId == e.request.verificationId && request.lineage == e.request.lineage
    ensures MismatchReasons(request, e) == {} <==> e.request.lineage.validFrom <= request.evaluatedAt <= e.request.lineage.validUntil
  {
    var l, m := request.lineage, e.request.lineage;
    assert l.(materialHash := m.materialHash, hashes := m.hashes, applicability := m.applicability) == m;
    if MismatchReasons(request, e) == {} {
      assert Flag(request.evaluatedAt < m.validFrom, NotYetEffective) == {};
      assert Flag(request.evaluatedAt > m.validUntil, Expired) == {};
    }
  }

  lemma LookupOne(s: DurableState, a: Applicability, e: Entry)
    requires s.Valid() && Matches(s.registry.entries, a) == [e]
    ensures Lookup(s.registry, a, s.revocations) ==
            LookupResult(if EntryRevoked(e, s.revocations) then RevokedEntry else ActiveEntry, Some(e))
    ensures e in s.registry.entries && e.request.lineage.applicability == a
    ensures s.registry.Valid() && Distinct(RevocationIds(s.revocations)) && Consistent(s.revocations)
  {
    hide Sorting.Sorted, EntryRevoked;
    assert e in Matches(s.registry.entries, a);
  }

  function Expected(e: Entry, a: Applicability, at: int): ConsumptionRequest {
    ConsumptionRequest(e.request.schemaVersion, e.request.proofId, e.request.admissionId, e.request.verificationId,
                       e.request.lineage.(applicability := a), at)
  }

  /** On a loaded state the service's own request is available exactly when the entry is in force. */
  lemma AvailableIffInForce(s: DurableState, a: Applicability, at: int, e: Entry)
    requires s.Valid() && Matches(s.registry.entries, a) == [e]
    ensures var proof := Consume(s.registry, Expected(e, a, at), s.revocations);
            && (proof.state.ProofAvailable? <==> InForce(s, a, at, e))
            && (proof.state.ProofAvailable? ==> proof == ConsumptionResult(ProofAvailable, {ExactActiveProof}, Some(e)))
            && (proof.state.ProofRevokedState? <==> EntryRevoked(e, s.revocations))
            && !proof.state.ProofConflict?
  {
    hide DurableState.Valid, Matches, Lookup, EntryRevoked, Consistent, Distinct, MismatchReasons, RevocationReasons, ProofRegistry.Valid;
    LookupOne(s, a, e);
    MismatchClear(Expected(e, a, at), e);
  }

  /** Terms are offered exactly for one unrevoked entry in force whose semantics price the request within its risk. */
  lemma TermsIff(row: Option<Row>, request: ServiceRequest, h: Hashes)
    ensures (exists t :: Evaluate(row, request, h) == Ok(ServiceResult(TermsAvailable, Some(t)))) <==>
            LoadOf(row, h).Ok? && exists e :: InForce(LoadOf(row, h).value, request.applicability, request.evaluatedAt, e) && Priced(e, request)
  {
    if LoadOf(row, h).Ok? {
      LoadedIsValid(row, h);
      var s := LoadOf(row, h).value;
      hide LoadOf;
      var matches := Matches(s.registry.entries, request.applicability);
      if |matches| == 1 {
        TermsForOne(row, request, h, matches[0]);
      } else {
        NoTermsOtherwise(row, request, h);
      }
    }
  }

  lemma NoTermsOtherwise(row: Option<Row>, request: ServiceRequest, h: Hashes)
    requires LoadOf(row, h).Ok? && |Matches(LoadOf(row, h).value.registry.entries, request.applicability)| != 1
    ensures Evaluate(row, request, h).Ok? && Evaluate(row, request, h).value.terms.None? && !Evaluate(row, request, h).value.state.TermsAvailable?
    ensures Distinct(RevocationIds(LoadOf(row, h).value.revocations)) ==>
              Evaluate(row, request, h).value.state ==
              if Matches(LoadOf(row, h).value.registry.entries, request.applicability) == [] then ServiceUnavailable else ServiceConflict
    ensures !exists e :: InForce(LoadOf(row, h).value, request.applicability, request.evaluatedAt, e)
  {
    hide LoadOf, Matches, Consume, EvaluateTerms;
  }

  lemma MaterialOf(s: DurableState, e: Entry, sha: Hasher)
    requires AllMaterialMatches(s, sha) && e in s.registry.entries
    ensures MaterialMatches(e, sha)
  {
    var i :| 0 <= i < |s.registry.entries| && s.registry.entries[i] == e;
  }

  /** Evaluation of a scope with exactly one entry. */
  lemma EvaluateOne(row: Option<Row>, request: ServiceRequest, h: Hashes, e: Entry)
    requires LoadOf(row, h).Ok? && LoadOf(row, h).value.Valid()
    requires Matches(LoadOf(row, h).value.registry.entries, request.applicability) == [e]
    ensures var s := LoadOf(row, h).value;
            var r := Evaluate(row, request, h);
            && (EntryRevoked(e, s.revocations) ==> r == Ok(ServiceResult(ServiceRevoked, None)))
            && (!EntryRevoked(e, s.revocations) && !InForce(s, request.applicability, request.evaluatedAt, e) ==>
                  r == Ok(ServiceResult(ServiceUnavailable, None)))
            && (InForce(s, request.applicability, request.evaluatedAt, e) ==>
                  r == if e.request.lineage.semantics.None? then Ok(ServiceResult(ModelUnsupported, None))
                       else EvaluateTerms(ConsumptionResult(ProofAvailable, {ExactActiveProof}, Some(e)), e.request.lineage.semantics.value,
                                          request.propositions, request.authorizedRisk, request.accountScope, h.sha))
  {
    hide LoadOf, Matches, Consume, Lookup, EntryRevoked, DurableState.Valid, EvaluateTerms, Expected, Distinct, Consistent, ProofRegistry.Valid;
    var s := LoadOf(row, h).value;
    LookupOne(s, request.applicability, e);
    AvailableIffInForce(s, request.applicability, request.evaluatedAt, e);
    hide InForce;
  }

  lemma TermsForOne(row: Option<Row>, request: ServiceRequest, h: Hashes, e: Entry)
    requires LoadOf(row, h).Ok? && LoadOf(row, h).value.Valid() && AllMaterialMatches(LoadOf(row, h).value, h.sha)
    requires Matches(LoadOf(row, h).value.registry.entries, request.applicability) == [e]
    ensures (exists t :: Evaluate(row, request, h) == Ok(ServiceResult(TermsAvailable, Some(t)))) <==>
            InForce(LoadOf(row, h).value, request.applicability, request.evaluatedAt, e) && Priced(e, request)
  {
    hide LoadOf, Matches, Evaluate, EntryRevoked, DurableState.Valid, AllMaterialMatches, Supports, InForce, Lookup, Distinct, Consistent, ProofRegistry.Valid;
    var s := LoadOf(row, h).value;
    LookupOne(s, request.applicability, e);
    MaterialOf(s, e, h.sha);
    EvaluateOne(row, request, h, e);
    if e.request.lineage.semantics.Some? && request.propositions.Some? {
      SuitsIff(e.request.lineage.semantics.value, request.propositions.value.multiplier);
    }
    hide Suits;
    if InForce(s, request.applicability, request.evaluatedAt, e) && Priced(e, request) {
      var p := request.propositions.value;
      var t := TermsFor(e, p, p.maximumLoss.value, request.accountScope);
      assert Evaluate(row, request, h) == Ok(ServiceResult(TermsAvailable, Some(t)));
    }
  }

  /** Offered terms are bound to the one entry in force for the requested scope and stay within the authorised risk. */
  lemma TermsAreBound(row: Option<Row>, request: ServiceRequest, h: Hashes, t: Terms)
    requires Evaluate(row, request, h) == Ok(ServiceResult(TermsAvailable, Some(t)))
    ensures exists e :: InForce(LoadOf(row, h).value, request.applicability, request.evaluatedAt, e)
                     && t.proofId == e.request.proofId && t.materialHash == e.request.lineage.materialHash
                     && Carries(t, e, request)
  {
    hide LoadOf, Matches, Evaluate, EntryRevoked, DurableState.Valid, AllMaterialMatches, Supports, InForce, Lookup, Distinct, Consistent, ProofRegistry.Valid;
    hide EvaluateTerms;
    TermsNeedStore(row, request, h);
    LoadedIsValid(row, h);
    var s := LoadOf(row, h).value;
    var matches := Matches(s.registry.entries, request.applicability);
    if |matches| == 1 {
      var e := matches[0];
      assert matches == [e];
      LookupOne(s, request.applicability, e);
      EvaluateOne(row, request, h, e);
      assert InForce(s, request.applicability, request.evaluatedAt, e);
      EntryIsComplete(s, e);
      OfferedCarries(e, request, h.sha, t);
    } else {
      NoTermsOtherwise(row, request, h);
    }
  }

  lemma EntryIsComplete(s: DurableState, e: Entry)
    requires s.Valid() && e in s.registry.entries
    ensures e.request.lineage.applicability.Complete()
  {
    hide Applicability.Complete, Semantics.Valid, Revocation.Valid, Consistent, Distinct;
    var i :| 0 <= i < |s.registry.entries| && s.registry.entries[i] == e;
    assert e.Valid();
  }

  /** The fields of offered terms, one by one: the request's own figures, and the scope and identities of the entry. */
  predicate Carries(t: Terms, e: Entry, request: ServiceRequest) {
    && request.propositions.Some?
    && var p, l, a := request.propositions.value, e.request.lineage, request.applicability;
    && t.stake == p.stake && t.multiplier == p.multiplier && t.stopLoss == p.stopLoss && t.takeProfit == p.takeProfit
    && p.maximumLoss == Some(t.maximumLoss) && t.maximumLoss <= request.authorizedRisk
    && t.accountScope == request.accountScope && t.applicability == a == l.applicability
    && a.environment == Some(t.environment) && a.accountCurrency == Some(t.accountCurrency)
    && a.symbol == Some(t.symbol) && a.contractFamily == Some(t.contractType)
    && t.proofId == e.request.proofId && t.materialHash == l.materialHash
    && t.lossModelId == l.lossModelId && t.lossModelVersion == l.lossModelVersion
  }

  lemma OfferedCarries(e: Entry, request: ServiceRequest, sha: Hasher, t: Terms)
    requires e.request.lineage.semantics.Some? && e.request.lineage.applicability == request.applicability
    requires e.request.lineage.applicability.Complete()
    requires EvaluateTerms(ConsumptionResult(ProofAvailable, {ExactActiveProof}, Some(e)), e.request.lineage.semantics.value,
                           request.propositions, request.authorizedRisk, request.accountScope, sha) == Ok(ServiceResult(TermsAvailable, Some(t)))
    ensures Carries(t, e, request)
  {
    hide Supports, Applicability.Valid, NonBlank;
  }

  lemma TermsNeedStore(row: Option<Row>, request: ServiceRequest, h: Hashes)
    requires Evaluate(row, request, h).Ok? && Evaluate(row, request, h).value.state.TermsAvailable?
    ensures LoadOf(row, h).Ok?
  {
    hide LoadOf, Lookup, Consume, EvaluateTerms;
  }

  /** The scope is revoked or duplicated in the loaded state. */
  ghost predicate Dead(row: Option<Row>, a: Applicability, h: Hashes) {
    && LoadOf(row, h).Ok?
    && var s := LoadOf(row, h).value; Rank(Lookup(s.registry, a, s.revocations).state) >= 2
  }

  lemma DeadGivesNoTerms(row: Option<Row>, request: ServiceRequest, h: Hashes)
    requires Dead(row, request.applicability, h)
    ensures Evaluate(row, request, h).Ok? && !Evaluate(row, request, h).value.state.TermsAvailable?
  {
    hide LoadOf, Matches, Evaluate, EntryRevoked, DurableState.Valid, AllMaterialMatches, Lookup, Distinct, Consistent, ProofRegistry.Valid, EvaluateTerms;
    LoadedIsValid(row, h);
    var s := LoadOf(row, h).value;
    var matches := Matches(s.registry.entries, request.applicability);
    if |matches| == 1 {
      assert matches == [matches[0]];
      LookupOne(s, request.applicability, matches[0]);
      EvaluateOne(row, request, h, matches[0]);
    } else {
      NoTermsOtherwise(row, request, h);
    }
  }

  /** Revocation is permanent: once a scope is revoked or duplicated, no later persists and no request obtain terms for it. */
  lemma RevocationIsPermanent(row: Option<Row>, states: seq<DurableState>, request: ServiceRequest, h: Hashes)
    requires AllStatesValid(states) && Dead(row, request.applicability, h)
    ensures var after := AfterPersists(row, states, h);
            && Dead(after, request.applicability, h)
            && Evaluate(after, request, h).Ok? && !Evaluate(after, request, h).value.state.TermsAvailable?
  {
    hide LoadOf, AfterPersists, Evaluate, Lookup, Rank, DurableState.Valid;
    LookupOnlyClimbs(row, states, h, request.applicability);
    DeadGivesNoTerms(AfterPersists(row, states, h), request, h);
  }

  // ---------------------------------------------------------------- every answer of the service

  /** What the service answers for the one unrevoked entry in force of the scope. */
  ghost predicate AnswersInForce(r: Result<ServiceResult>, e: Entry, request: ServiceRequest) {
    var s, p := e.request.lineage.semantics, request.propositions;
    if s.None? || p.None? || !Suits(s.value, p.value.multiplier) then r == Ok(ServiceResult(ModelUnsupported, None))
    else if p.value.maximumLoss.None? then r == Ok(ServiceResult(FinancialInputInvalid, None))
    else if p.value.maximumLoss.value > request.authorizedRisk then r == Ok(ServiceResult(RiskBoundExceeded, None))
    else if request.applicability.contractFamily in {Some("MULTUP"), Some("MULTDOWN")} then
      r.Ok? && r.value.state.TermsAvailable? && r.value.terms.Some? && Carries(r.value.terms.value, e, request)
    else r.Err?
  }

  /** What the service answers, by the entries of the scope and the revocations that name them. */
  ghost predicate Answers(r: Result<ServiceResult>, s: DurableState, request: ServiceRequest) {
    var matches := Matches(s.registry.entries, request.applicability);
    if matches == [] then r == Ok(ServiceResult(ServiceUnavailable, None))
    else if |matches| > 1 then r == Ok(ServiceResult(ServiceConflict, None))
    else
      var e := matches[0];
      if exists revocation :: revocation in s.revocations && Names(revocation, e) then r == Ok(ServiceResult(ServiceRevoked, None))
      else if request.evaluatedAt < e.request.lineage.validFrom || e.request.lineage.validUntil < request.evaluatedAt then
        r == Ok(ServiceResult(ServiceUnavailable, None))
      else AnswersInForce(r, e, request)
  }

  lemma InForceAnswer(row: Option<Row>, request: ServiceRequest, h: Hashes, e: Entry)
    requires LoadOf(row, h).Ok? && LoadOf(row, h).value.Valid() && AllMaterialMatches(LoadOf(row, h).value, h.sha)
    requires InForce(LoadOf(row, h).value, request.applicability, request.evaluatedAt, e)
    ensures AnswersInForce(Evaluate(row, request, h), e, request)
  {
    hide LoadOf, Matches, Evaluate, EntryRevoked, DurableState.Valid, AllMaterialMatches, Supports, Suits, Carries, Lookup, Distinct, Consistent, ProofRegistry.Valid;
    var s := LoadOf(row, h).value;
    LookupOne(s, request.applicability, e);
    MaterialOf(s, e, h.sha);
    EntryIsComplete(s, e);
    EvaluateOne(row, request, h, e);
    if e.request.lineage.semantics.Some? && request.propositions.Some? {
      SuitsIff(e.request.lineage.semantics.value, request.propositions.value.multiplier);
    }
    FamilyIsPresent(e.request.lineage.applicability);
    var r := Evaluate(row, request, h);
    if r.Ok? && r.value.state.TermsAvailable? && r.value.terms.Some? && e.request.lineage.semantics.Some? {
      OfferedCarries(e, request, h.sha, r.value.terms.value);
    }
  }

  lemma FamilyIsPresent(a: Applicability)
    requires a.Complete()
    ensures a.contractFamily == Some(OrEmpty(a.contractFamily))
  {
    hide Applicability.Valid, NonBlank;
  }

  /** Every answer of the service, for every stored row and every request. */
  lemma ServiceAnswers(row: Option<Row>, request: ServiceRequest, h: Hashes)
    ensures if LoadOf(row, h).Err? then Evaluate(row, request, h) == Ok(ServiceResult(StoreUnavailable, None))
            else Answers(Evaluate(row, request, h), LoadOf(row, h).value, request)
  {
    hide LoadOf, Matches, EntryRevoked, DurableState.Valid, AllMaterialMatches, Lookup, Distinct, Consistent, ProofRegistry.Valid, AnswersInForce, Consume, EvaluateTerms, Names;
    if LoadOf(row, h).Ok? {
      LoadedIsValid(row, h);
      hide Evaluate;
      var s := LoadOf(row, h).value;
      var matches := Matches(s.registry.entries, request.applicability);
      if |matches| == 1 {
        var e := matches[0];
        assert matches == [e];
        LookupOne(s, request.applicability, e);
        EvaluateOne(row, request, h, e);
        EntryRevokedIff(e, s.revocations);
        if InForce(s, request.applicability, request.evaluatedAt, e) {
          InForceAnswer(row, request, h, e);
        }
      } else {
        DistinctPart(s);
        NoTermsOtherwise(row, request, h);
      }
    }
  }

  lemma DistinctPart(s: DurableState)
    requires s.Valid()
    ensures Distinct(RevocationIds(s.revocations))
  {
    hide ProofRegistry.Valid, Consistent, Revocation.Valid;
  }
}
