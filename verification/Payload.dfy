/** Encoding of registry entries, revocations and whole durable states (broker/deriv_proof_store.py). */
module Payload {
  import opened Prelude
  import opened Texts
  import opened Sorting
  import opened Evidence
  import opened Registration
  import opened Registry
  import opened DurableProofs
  import opened Codec

  function EncodeTexts(xs: seq<string>): Json {
    EncodeList(xs, (t: string) => JText(t))
  }

  function EncodeMaybeSemantics(s: Option<Semantics>): Json {
    if s.None? then JNull else EncodeSemantics(s.value)
  }

  function MaybeSemanticsAt(j: Json, k: Key): Option<Option<Semantics>> {
    var v :- Get(j, k);
    if v.JNull? then Some(None) else
    var s :- DecodeSemantics(v);
    Some(Some(s))
  }

  function EncodeEntry(e: Entry): Json {
    var r, l := e.request, e.request.lineage;
    JObject(map[
      KSchemaVersion := JInt(r.schemaVersion), KAdmissionId := JText(r.admissionId), KProofId := JText(r.proofId),
      KVerificationId := JText(r.verificationId), KAdmittedBy := JText(r.admittedBy), KAdmittedAt := JTime(r.admittedAt),
      KEligible := JBool(e.eligibility.eligible), KEligibilityReasons := JCode(CReasons(e.eligibility.reasons)),
      KCandidateId := JText(l.candidateId), KMaterialHash := JText(l.materialHash), KLossModelId := JText(l.lossModelId),
      KLossModelVersion := JInt(l.lossModelVersion), KEvidenceSourceId := JText(l.evidenceSourceId),
      KAssessmentId := JText(l.assessmentId), KDecisionId := JText(l.decisionId), KArtifactIds := EncodeTexts(l.artifactIds),
      KHashes := EncodeTexts(l.hashes), KClaimIds := EncodeTexts(l.claimIds),
      KApplicability := EncodeApplicability(l.applicability), KValidFrom := JTime(l.validFrom), KValidUntil := JTime(l.validUntil),
      KSemantics := EncodeMaybeSemantics(l.semantics)])
  }

  function DecodeLineage(j: Json): Option<Lineage> {
    var semantics :- MaybeSemanticsAt(j, KSemantics);
    var candidate :- TextAt(j, KCandidateId);
    var material :- TextAt(j, KMaterialHash);
    var model :- TextAt(j, KLossModelId);
    var version :- IntAt(j, KLossModelVersion);
    var source :- TextAt(j, KEvidenceSourceId);
    var assessment :- TextAt(j, KAssessmentId);
    var decision :- TextAt(j, KDecisionId);
    var artifacts :- ListAt(j, KArtifactIds, AsText);
    var hashes :- ListAt(j, KHashes, AsText);
    var claims :- ListAt(j, KClaimIds, AsText);
    var scopeData :- Get(j, KApplicability);
    var scope :- DecodeApplicability(scopeData);
    var from :- TimeAt(j, KValidFrom);
    var until :- TimeAt(j, KValidUntil);
    Some(Lineage(candidate, material, model, version, source, assessment, decision, artifacts, hashes, claims, scope, from, until, semantics))
  }

  function DecodeParts(j: Json): Option<Entry> {
    var lineage :- DecodeLineage(j);
    var schema :- IntAt(j, KSchemaVersion);
    var admission :- TextAt(j, KAdmissionId);
    var proof :- TextAt(j, KProofId);
    var verification :- TextAt(j, KVerificationId);
    var author :- TextAt(j, KAdmittedBy);
    var at :- TimeAt(j, KAdmittedAt);
    var eligible :- BoolAt(j, KEligible);
    var reasons :- CodeAt(j, KEligibilityReasons);
    if !reasons.CReasons? then None else
    Some(Entry(Request(schema, admission, proof, verification, lineage, author, at), Eligibility(eligible, reasons.reasons)))
  }

  predicate MaterialMatches(e: Entry, sha: Hasher) {
    var l := e.request.lineage;
    l.semantics.Some? ==> sha(l.semantics.value) == l.materialHash
  }

  /** _entry_from_data: a valid entry whose declared semantics hash to its material hash. */
  function DecodeEntry(j: Json, sha: Hasher): Option<Entry> {
    var e :- DecodeParts(j);
    if e.Valid() && MaterialMatches(e, sha) then Some(e) else None
  }

  function EncodeRevocation(r: Revocation): Json {
    JObject(map[
      KSchemaVersion := JInt(r.schemaVersion), KRevocationId := JText(r.revocationId), KTarget := JCode(CTarget(r.target)),
      KTargetId := JText(r.targetId), KReason := JCode(CRevocation(r.reason)), KRevokedBy := JText(r.revokedBy),
      KRevokedAt := JTime(r.revokedAt), KSupersededBy := FromText(r.supersededBy)])
  }

  function DecodeRevocation(j: Json): Option<Revocation> {
    var schema :- IntAt(j, KSchemaVersion);
    var id :- TextAt(j, KRevocationId);
    var target :- CodeAt(j, KTarget);
    var targetId :- TextAt(j, KTargetId);
    var reason :- CodeAt(j, KReason);
    var author :- TextAt(j, KRevokedBy);
    var at :- TimeAt(j, KRevokedAt);
    var superseded :- MaybeTextAt(j, KSupersededBy);
    if !target.CTarget? || !reason.CRevocation? then None else
    var r := Revocation(schema, id, target.target, targetId, reason.reason, author, at, superseded);
    if r.Valid() then Some(r) else None
  }

  /** _state_to_payload */
  function EncodeState(s: DurableState): Json {
    JObject(map[KEntries := EncodeList(s.registry.entries, EncodeEntry), KRevocations := EncodeList(s.revocations, EncodeRevocation)])
  }

  function DecodeStateParts(j: Json, sha: Hasher): Option<DurableState> {
    if !j.JObject? || j.fields.Keys != {KEntries, KRevocations} then None else
    var entries :- ListAt(j, KEntries, (item: Json) => DecodeEntry(item, sha));
    var revocations :- ListAt(j, KRevocations, DecodeRevocation);
    Some(DurableState(ProofRegistry(entries), revocations))
  }

  /** _state_from_payload: decode, revalidate, and insist that the payload is canonical. */
  function DecodeState(j: Json, sha: Hasher): (r: Option<DurableState>)
    ensures r.Some? ==> r.value.Valid() && EncodeState(r.value) == j
  {
    var s :- DecodeStateParts(j, sha);
    if s.Valid() && EncodeState(s) == j then Some(s) else None
  }

  // ---------------------------------------------------------------- round trips

  lemma MaybeSemanticsField(j: Json, k: Key, s: Option<Semantics>)
    requires Holds(j, k, EncodeMaybeSemantics(s)) && (s.Some? ==> s.value.Valid())
    ensures MaybeSemanticsAt(j, k) == Some(s)
  {
    hide DecodeSemantics, Semantics.Valid;
    if s.Some? { SemanticsRoundTrip(s.value); }
  }

  lemma TextsField(j: Json, k: Key, xs: seq<string>)
    requires Holds(j, k, EncodeTexts(xs))
    ensures ListAt(j, k, AsText) == Some(xs)
  {
    ListField(j, k, xs, (t: string) => JText(t), AsText);
  }

  lemma LineageRoundTrip(e: Entry)
    requires e.request.lineage.applicability.Valid() && (e.request.lineage.semantics.Some? ==> e.request.lineage.semantics.value.Valid())
    ensures DecodeLineage(EncodeEntry(e)) == Some(e.request.lineage)
  {
    hide Applicability.Valid, Semantics.Valid, EncodeApplicability, DecodeApplicability, EncodeMaybeSemantics, EncodeTexts;
    hide TextAt, IntAt, TimeAt, ListAt, MaybeSemanticsAt;
    var j, l := EncodeEntry(e), e.request.lineage;
    MaybeSemanticsField(j, KSemantics, l.semantics);
    TextField(j, KCandidateId, l.candidateId);
    TextField(j, KMaterialHash, l.materialHash);
    TextField(j, KLossModelId, l.lossModelId);
    IntField(j, KLossModelVersion, l.lossModelVersion);
    TextField(j, KEvidenceSourceId, l.evidenceSourceId);
    TextField(j, KAssessmentId, l.assessmentId);
    TextField(j, KDecisionId, l.decisionId);
    TextsField(j, KArtifactIds, l.artifactIds);
    TextsField(j, KHashes, l.hashes);
    TextsField(j, KClaimIds, l.claimIds);
    TimeField(j, KValidFrom, l.validFrom);
    TimeField(j, KValidUntil, l.validUntil);
    assert Get(j, KApplicability) == Some(EncodeApplicability(l.applicability));
    ApplicabilityRoundTrip(l.applicability);
    hide EncodeEntry, Get;
  }

  lemma RequestFields(e: Entry)
    ensures var j, r := EncodeEntry(e), e.request;
            && IntAt(j, KSchemaVersion) == Some(r.schemaVersion)
            && TextAt(j, KAdmissionId) == Some(r.admissionId)
            && TextAt(j, KProofId) == Some(r.proofId)
            && TextAt(j, KVerificationId) == Some(r.verificationId)
            && TextAt(j, KAdmittedBy) == Some(r.admittedBy)
            && TimeAt(j, KAdmittedAt) == Some(r.admittedAt)
  {
    hide EncodeApplicability, EncodeMaybeSemantics, EncodeTexts, TextAt, IntAt, TimeAt;
    var j, r := EncodeEntry(e), e.request;
    IntField(j, KSchemaVersion, r.schemaVersion);
    TextField(j, KAdmissionId, r.admissionId);
    TextField(j, KProofId, r.proofId);
    TextField(j, KVerificationId, r.verificationId);
    TextField(j, KAdmittedBy, r.admittedBy);
    TimeField(j, KAdmittedAt, r.admittedAt);
  }

  lemma EligibilityFields(e: Entry)
    ensures BoolAt(EncodeEntry(e), KEligible) == Some(e.eligibility.eligible)
    ensures CodeAt(EncodeEntry(e), KEligibilityReasons) == Some(CReasons(e.eligibility.reasons))
  {
    hide EncodeApplicability, EncodeMaybeSemantics, EncodeTexts, BoolAt, CodeAt;
    BoolField(EncodeEntry(e), KEligible, e.eligibility.eligible);
    CodeField(EncodeEntry(e), KEligibilityReasons, CReasons(e.eligibility.reasons));
  }

  lemma PartsRoundTrip(e: Entry)
    requires e.request.lineage.applicability.Valid() && (e.request.lineage.semantics.Some? ==> e.request.lineage.semantics.value.Valid())
    ensures DecodeParts(EncodeEntry(e)) == Some(e)
  {
    hide Applicability.Valid, Semantics.Valid, EncodeEntry, DecodeLineage, TextAt, IntAt, TimeAt, BoolAt, CodeAt;
    LineageRoundTrip(e);
    RequestFields(e);
    EligibilityFields(e);
  }

  lemma LineageParts(e: Entry)
    requires e.Valid()
    ensures e.request.lineage.applicability.Valid() && (e.request.lineage.semantics.Some? ==> e.request.lineage.semantics.value.Valid())
  {
    hide Semantics.Valid, EvidenceTuples;
  }

  /** A valid entry survives exactly when its semantics hash to its material hash. */
  lemma EntryRoundTrip(e: Entry, sha: Hasher)
    requires e.Valid()
    ensures DecodeEntry(EncodeEntry(e), sha) == if MaterialMatches(e, sha) then Some(e) else None
  {
    hide EncodeEntry, DecodeParts, Entry.Valid, MaterialMatches, Applicability.Valid, Semantics.Valid;
    LineageParts(e);
    PartsRoundTrip(e);
  }

  lemma RevocationRoundTrip(r: Revocation)
    requires r.Valid()
    ensures DecodeRevocation(EncodeRevocation(r)) == Some(r)
  {
    hide Revocation.Valid, FromText, TextAt, IntAt, TimeAt, CodeAt, MaybeTextAt;
    var j := EncodeRevocation(r);
    IntField(j, KSchemaVersion, r.schemaVersion);
    TextField(j, KRevocationId, r.revocationId);
    CodeField(j, KTarget, CTarget(r.target));
    TextField(j, KTargetId, r.targetId);
    CodeField(j, KReason, CRevocation(r.reason));
    TextField(j, KRevokedBy, r.revokedBy);
    TimeField(j, KRevokedAt, r.revokedAt);
    MaybeTextField(j, KSupersededBy, r.supersededBy);
    hide EncodeRevocation;
  }

  lemma {:induction false} ListFails<T>(items: seq<Json>, decode: Json -> Option<T>, i: nat)
    requires i < |items| && decode(items[i]).None?
    ensures DecodeList(items, decode).None?
  {
    if i < |items| - 1 {
      ListFails(Init(items), decode, i);
    }
  }

  /** Every entry's declared semantics hash to its material hash. */
  predicate AllMaterialMatches(s: DurableState, sha: Hasher) {
    forall i :: 0 <= i < |s.registry.entries| ==> MaterialMatches(s.registry.entries[i], sha)
  }

  lemma EntriesRoundTrip(entries: seq<Entry>, sha: Hasher)
    requires forall i :: 0 <= i < |entries| ==> entries[i].Valid()
    ensures DecodeList(EncodeList(entries, EncodeEntry).items, (item: Json) => DecodeEntry(item, sha)) ==
            if forall i :: 0 <= i < |entries| ==> MaterialMatches(entries[i], sha) then Some(entries) else None
  {
    hide EncodeEntry, DecodeEntry, Entry.Valid, MaterialMatches, DecodeList;
    var decode := (item: Json) => DecodeEntry(item, sha);
    forall i | 0 <= i < |entries|
      ensures decode(EncodeEntry(entries[i])) == if MaterialMatches(entries[i], sha) then Some(entries[i]) else None
    {
      EntryRoundTrip(entries[i], sha);
    }
    if i :| 0 <= i < |entries| && !MaterialMatches(entries[i], sha) {
      assert EncodeList(entries, EncodeEntry).items[i] == EncodeEntry(entries[i]);
      ListFails(EncodeList(entries, EncodeEntry).items, decode, i);
    } else {
      ListRoundTrip(entries, EncodeEntry, decode);
    }
  }

  /** A valid durable state survives the payload unchanged exactly when every entry's material matches; otherwise it is refused. */
  lemma StateRoundTrip(s: DurableState, sha: Hasher)
    requires s.Valid()
    ensures DecodeState(EncodeState(s), sha) == if AllMaterialMatches(s, sha) then Some(s) else None
  {
    hide EncodeEntry, DecodeEntry, EncodeRevocation, DecodeRevocation, Entry.Valid, Revocation.Valid, MaterialMatches, DecodeList, Sorted, Distinct, Consistent;
    var j := EncodeState(s);
    assert j.fields.Keys == {KEntries, KRevocations};
    EntriesRoundTrip(s.registry.entries, sha);
    forall i | 0 <= i < |s.revocations| ensures DecodeRevocation(EncodeRevocation(s.revocations[i])) == Some(s.revocations[i]) {
      RevocationRoundTrip(s.revocations[i]);
    }
    ListField(j, KRevocations, s.revocations, EncodeRevocation, DecodeRevocation);
    hide DurableState.Valid, EncodeList;
  }
}
