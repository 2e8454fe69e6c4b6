/**
  The durable payload (broker/deriv_proof_store.py): records to a tree of data and back. Texts, numbers
  and flags are leaves; so are enum members, instants and decimals, whose text forms are canonical.
*/
module Codec {
  import opened Prelude
  import opened Evidence
  import opened Registration

  datatype Key =
    | KBroker | KContractFamily | KSymbol | KAccountCurrency | KEnvironment | KQuantityBasis | KStopLossSemanticId
    | KMultiplierSemanticsId | KSymbolCapabilityScope | KSemantic | KUnit | KCurrencyBinding | KExplicitCurrency | KSigned
    | KZeroAllowed | KOperandId | KSemanticId | KRole | KPosition | KRequired | KDomain | KLowerBound | KUpperBound
    | KCurrencyBound | KMultiplierBound | KPrecision | KMode | KStage | KSchemaVersion | KSemanticVersion
    | KEquationIdentityHash | KOperands | KOutput | KRounding | KDomainConstraintIds | KApplicability
    | KQuantityBasisSemanticId | KStopSemanticId | KMultiplierSemanticId | KTakeProfitOutput | KTakeProfitSemanticId
    | KMaximumLossOutput | KMaximumLossSemanticId | KAllowedMultipliers | KAdmissionId | KProofId | KCandidateId
    | KMaterialHash | KVerificationId | KAssessmentId | KDecisionId | KArtifactIds | KHashes | KClaimIds | KLossModelId
    | KLossModelVersion | KEvidenceSourceId | KEligible | KEligibilityReasons | KAdmittedBy | KAdmittedAt | KValidFrom
    | KValidUntil | KSemantics | KRevocationId | KTarget | KTargetId | KReason | KRevokedBy | KRevokedAt | KSupersededBy
    | KEntries | KRevocations

  datatype Code =
    | CUnit(unit: Unit) | CRole(role: OperandRole) | CDomain(domain: Domain) | COutput(output: OutputSemantic)
    | CBinding(binding: CurrencyBinding) | CMode(mode: RoundingMode) | CStage(stage: RoundingStage)
    | CReasons(reasons: set<RegistrationReason>) | CTarget(target: Target) | CRevocation(reason: RevocationReason)

  datatype Json =
    | JNull | JBool(flag: bool) | JInt(number: int) | JText(text: string) | JTime(time: int) | JDecimal(decimal: real)
    | JCode(code: Code) | JList(items: seq<Json>) | JObject(fields: map<Key, Json>)

  // ---------------------------------------------------------------- leaves

  function FromText(s: Option<string>): Json {
    if s.None? then JNull else JText(s.value)
  }

  function FromDecimal(d: Option<real>): Json {
    if d.None? then JNull else JDecimal(d.value)
  }

  function FromInt(i: Option<int>): Json {
    if i.None? then JNull else JInt(i.value)
  }

  function EncodeList<T>(xs: seq<T>, encode: T -> Json): Json {
    JList(seq(|xs|, i requires 0 <= i < |xs| => encode(xs[i])))
  }

  function Get(j: Json, k: Key): Option<Json> {
    if j.JObject? && k in j.fields then Some(j.fields[k]) else None
  }

  function TextAt(j: Json, k: Key): Option<string> {
    var v :- Get(j, k);
    if v.JText? then Some(v.text) else None
  }

  function MaybeTextAt(j: Json, k: Key): Option<Option<string>> {
    var v :- Get(j, k);
    if v.JNull? then Some(None) else if v.JText? then Some(Some(v.text)) else None
  }

  function IntAt(j: Json, k: Key): Option<int> {
    var v :- Get(j, k);
    if v.JInt? then Some(v.number) else None
  }

  function BoolAt(j: Json, k: Key): Option<bool> {
    var v :- Get(j, k);
    if v.JBool? then Some(v.flag) else None
  }

  function TimeAt(j: Json, k: Key): Option<int> {
    var v :- Get(j, k);
    if v.JTime? then Some(v.time) else None
  }

  function CodeAt(j: Json, k: Key): Option<Code> {
    var v :- Get(j, k);
    if v.JCode? then Some(v.code) else None
  }

  function MaybeDecimalAt(j: Json, k: Key): Option<Option<real>> {
    var v :- Get(j, k);
    if v.JNull? then Some(None) else if v.JDecimal? then Some(Some(v.decimal)) else None
  }

  function DecodeList<T>(items: seq<Json>, decode: Json -> Option<T>): Option<seq<T>> {
    if items == [] then Some([]) else
    var before :- DecodeList(Init(items), decode);
    var x :- decode(Last(items));
    Some(before + [x])
  }

  function ListAt<T>(j: Json, k: Key, decode: Json -> Option<T>): Option<seq<T>> {
    var v :- Get(j, k);
    if v.JList? then DecodeList(v.items, decode) else None
  }

  function AsText(j: Json): Option<string> {
    if j.JText? then Some(j.text) else None
  }

  function AsDecimal(j: Json): Option<real> {
    if j.JDecimal? then Some(j.decimal) else None
  }

  lemma {:induction false} ListRoundTrip<T>(xs: seq<T>, encode: T -> Json, decode: Json -> Option<T>)
    requires forall i :: 0 <= i < |xs| ==> decode(encode(xs[i])) == Some(xs[i])
    ensures DecodeList(EncodeList(xs, encode).items, decode) == Some(xs)
  {
    if xs != [] {
      ListRoundTrip(Init(xs), encode, decode);
      assert Init(EncodeList(xs, encode).items) == EncodeList(Init(xs), encode).items;
      assert Init(xs) + [Last(xs)] == xs;
    }
  }

  // Reading back a field that was written.

  predicate Holds(j: Json, k: Key, v: Json) {
    j.JObject? && k in j.fields && j.fields[k] == v
  }

  lemma TextField(j: Json, k: Key, x: string) requires Holds(j, k, JText(x)) ensures TextAt(j, k) == Some(x) {}
  lemma MaybeTextField(j: Json, k: Key, x: Option<string>) requires Holds(j, k, FromText(x)) ensures MaybeTextAt(j, k) == Some(x) {}
  lemma IntField(j: Json, k: Key, x: int) requires Holds(j, k, JInt(x)) ensures IntAt(j, k) == Some(x) {}
  lemma BoolField(j: Json, k: Key, x: bool) requires Holds(j, k, JBool(x)) ensures BoolAt(j, k) == Some(x) {}
  lemma TimeField(j: Json, k: Key, x: int) requires Holds(j, k, JTime(x)) ensures TimeAt(j, k) == Some(x) {}
  lemma CodeField(j: Json, k: Key, x: Code) requires Holds(j, k, JCode(x)) ensures CodeAt(j, k) == Some(x) {}
  lemma MaybeDecimalField(j: Json, k: Key, x: Option<real>) requires Holds(j, k, FromDecimal(x)) ensures MaybeDecimalAt(j, k) == Some(x) {}

  lemma ListField<T>(j: Json, k: Key, xs: seq<T>, encode: T -> Json, decode: Json -> Option<T>)
    requires Holds(j, k, EncodeList(xs, encode))
    requires forall i :: 0 <= i < |xs| ==> decode(encode(xs[i])) == Some(xs[i])
    ensures ListAt(j, k, decode) == Some(xs)
  {
    ListRoundTrip(xs, encode, decode);
  }

  // ---------------------------------------------------------------- records

  function EncodeApplicability(a: Applicability): Json {
    JObject(map[
      KBroker := JText(a.broker), KContractFamily := FromText(a.contractFamily), KSymbol := FromText(a.symbol),
      KAccountCurrency := FromText(a.accountCurrency), KEnvironment := FromText(a.environment),
      KQuantityBasis := FromText(a.quantityBasis), KStopLossSemanticId := FromText(a.stopLossSemanticId),
      KMultiplierSemanticsId := FromText(a.multiplierSemanticsId), KSymbolCapabilityScope := FromText(a.symbolCapabilityScope)])
  }

  const APPLICABILITY_KEYS := {KBroker, KContractFamily, KSymbol, KAccountCurrency, KEnvironment, KQuantityBasis,
                               KStopLossSemanticId, KMultiplierSemanticsId, KSymbolCapabilityScope}

  function DecodeApplicability(j: Json): Option<Applicability> {
    if !j.JObject? || j.fields.Keys != APPLICABILITY_KEYS then None else
    var broker :- TextAt(j, KBroker);
    var family :- MaybeTextAt(j, KContractFamily);
    var symbol :- MaybeTextAt(j, KSymbol);
    var currency :- MaybeTextAt(j, KAccountCurrency);
    var environment :- MaybeTextAt(j, KEnvironment);
    var basis :- MaybeTextAt(j, KQuantityBasis);
    var stop :- MaybeTextAt(j, KStopLossSemanticId);
    var multiplier :- MaybeTextAt(j, KMultiplierSemanticsId);
    var scope :- MaybeTextAt(j, KSymbolCapabilityScope);
    var a := Applicability(broker, family, symbol, currency, environment, basis, stop, multiplier, scope);
    if a.Valid() then Some(a) else None
  }

  lemma ApplicabilityRoundTrip(a: Applicability)
    requires a.Valid()
    ensures DecodeApplicability(EncodeApplicability(a)) == Some(a)
  {
    hide Applicability.Valid, TextAt, MaybeTextAt, FromText;
    var j := EncodeApplicability(a);
    assert j.fields.Keys == APPLICABILITY_KEYS;
    TextField(j, KBroker, a.broker);
    MaybeTextField(j, KContractFamily, a.contractFamily);
    MaybeTextField(j, KSymbol, a.symbol);
    MaybeTextField(j, KAccountCurrency, a.accountCurrency);
    MaybeTextField(j, KEnvironment, a.environment);
    MaybeTextField(j, KQuantityBasis, a.quantityBasis);
    MaybeTextField(j, KStopLossSemanticId, a.stopLossSemanticId);
    MaybeTextField(j, KMultiplierSemanticsId, a.multiplierSemanticsId);
    MaybeTextField(j, KSymbolCapabilityScope, a.symbolCapabilityScope);
    hide EncodeApplicability;
  }

  function EncodeOutput(o: Output): Json {
    JObject(map[
      KSemantic := JCode(COutput(o.semantic)), KUnit := JCode(CUnit(o.unit)), KCurrencyBinding := JCode(CBinding(o.binding)),
      KExplicitCurrency := FromText(o.explicitCurrency), KSigned := JBool(o.signed), KZeroAllowed := JBool(o.zeroAllowed)])
  }

  function DecodeOutput(j: Json): Option<Output> {
    if !j.JObject? || j.fields.Keys != {KSemantic, KUnit, KCurrencyBinding, KExplicitCurrency, KSigned, KZeroAllowed} then None else
    var semantic :- CodeAt(j, KSemantic);
    var unit :- CodeAt(j, KUnit);
    var binding :- CodeAt(j, KCurrencyBinding);
    var currency :- MaybeTextAt(j, KExplicitCurrency);
    var signed :- BoolAt(j, KSigned);
    var zero :- BoolAt(j, KZeroAllowed);
    if !semantic.COutput? || !unit.CUnit? || !binding.CBinding? then None else
    var o := Output(semantic.output, unit.unit, binding.binding, currency, signed, zero);
    if o.Valid() then Some(o) else None
  }

  lemma OutputRoundTrip(o: Output)
    requires o.Valid()
    ensures DecodeOutput(EncodeOutput(o)) == Some(o)
  {
    hide Output.Valid;
    assert EncodeOutput(o).fields.Keys == {KSemantic, KUnit, KCurrencyBinding, KExplicitCurrency, KSigned, KZeroAllowed};
  }

  function EncodeMaybeOutput(o: Option<Output>): Json {
    if o.None? then JNull else EncodeOutput(o.value)
  }

  function MaybeOutputAt(j: Json, k: Key): Option<Option<Output>> {
    var v :- Get(j, k);
    if v.JNull? then Some(None) else
    var o :- DecodeOutput(v);
    Some(Some(o))
  }

  function EncodeOperand(o: Operand): Json {
    JObject(map[
      KOperandId := JText(o.operandId), KSemanticId := JText(o.semanticId), KUnit := JCode(CUnit(o.unit)),
      KRole := JCode(CRole(o.role)), KPosition := JInt(o.position), KRequired := JBool(o.required),
      KDomain := JCode(CDomain(o.domain)), KLowerBound := FromDecimal(o.lowerBound), KUpperBound := FromDecimal(o.upperBound),
      KZeroAllowed := JBool(o.zeroAllowed), KCurrencyBound := JBool(o.currencyBound), KMultiplierBound := JBool(o.multiplierBound)])
  }

  function DecodeOperand(j: Json): Option<Operand> {
    var id :- TextAt(j, KOperandId);
    var semantic :- TextAt(j, KSemanticId);
    var unit :- CodeAt(j, KUnit);
    var role :- CodeAt(j, KRole);
    var position :- IntAt(j, KPosition);
    var required :- BoolAt(j, KRequired);
    var domain :- CodeAt(j, KDomain);
    var lower :- MaybeDecimalAt(j, KLowerBound);
    var upper :- MaybeDecimalAt(j, KUpperBound);
    var zero :- BoolAt(j, KZeroAllowed);
    var currency :- BoolAt(j, KCurrencyBound);
    var multiplier :- BoolAt(j, KMultiplierBound);
    if !unit.CUnit? || !role.CRole? || !domain.CDomain? then None else
    var o := Operand(id, semantic, unit.unit, role.role, position, required, domain.domain, lower, upper, zero, currency, multiplier);
    if o.Valid() then Some(o) else None
  }

  lemma OperandRoundTrip(o: Operand)
    requires o.Valid()
    ensures DecodeOperand(EncodeOperand(o)) == Some(o)
  {
    hide Operand.Valid, TextAt, CodeAt, IntAt, BoolAt, MaybeDecimalAt, FromDecimal;
    var j := EncodeOperand(o);
    TextField(j, KOperandId, o.operandId);
    TextField(j, KSemanticId, o.semanticId);
    CodeField(j, KUnit, CUnit(o.unit));
    CodeField(j, KRole, CRole(o.role));
    IntField(j, KPosition, o.position);
    BoolField(j, KRequired, o.required);
    CodeField(j, KDomain, CDomain(o.domain));
    MaybeDecimalField(j, KLowerBound, o.lowerBound);
    MaybeDecimalField(j, KUpperBound, o.upperBound);
    BoolField(j, KZeroAllowed, o.zeroAllowed);
    BoolField(j, KCurrencyBound, o.currencyBound);
    BoolField(j, KMultiplierBound, o.multiplierBound);
    hide EncodeOperand;
  }

  function EncodeRounding(r: Rounding): Json {
    JObject(map[KRequired := JBool(r.required), KPrecision := FromInt(r.precision), KMode := JCode(CMode(r.mode)), KStage := JCode(CStage(r.stage))])
  }

  function DecodeRounding(j: Json): Option<Rounding> {
    var required :- BoolAt(j, KRequired);
    var precision :- Get(j, KPrecision);
    var mode :- CodeAt(j, KMode);
    var stage :- CodeAt(j, KStage);
    if !(precision.JNull? || precision.JInt?) || !mode.CMode? || !stage.CStage? then None else
    var r := Rounding(required, if precision.JNull? then None else Some(precision.number), mode.mode, stage.stage);
    if r.Valid() then Some(r) else None
  }

  lemma RoundingRoundTrip(r: Rounding)
    requires r.Valid()
    ensures DecodeRounding(EncodeRounding(r)) == Some(r)
  {
  }

  function EncodeSemantics(s: Semantics): Json {
    JObject(map[
      KSchemaVersion := JInt(s.schemaVersion), KSemanticId := JText(s.semanticId), KSemanticVersion := JInt(s.semanticVersion),
      KEquationIdentityHash := JText(s.equationIdentityHash), KOperands := EncodeList(s.operands, EncodeOperand),
      KOutput := EncodeOutput(s.output), KRounding := EncodeRounding(s.rounding),
      KDomainConstraintIds := EncodeList(s.domainConstraintIds, (t: string) => JText(t)),
      KApplicability := EncodeApplicability(s.applicability), KContractFamily := JText(s.contractFamily),
      KQuantityBasisSemanticId := JText(s.quantityBasisSemanticId), KStopSemanticId := JText(s.stopSemanticId),
      KMultiplierSemanticId := JText(s.multiplierSemanticId), KTakeProfitOutput := EncodeMaybeOutput(s.takeProfitOutput),
      KTakeProfitSemanticId := FromText(s.takeProfitSemanticId), KMaximumLossOutput := EncodeMaybeOutput(s.maximumLossOutput),
      KMaximumLossSemanticId := FromText(s.maximumLossSemanticId),
      KAllowedMultipliers := EncodeList(s.allowedMultipliers, (d: real) => JDecimal(d))])
  }

  function DecodeSemantics(j: Json): Option<Semantics> {
    var schema :- IntAt(j, KSchemaVersion);
    var id :- TextAt(j, KSemanticId);
    var version :- IntAt(j, KSemanticVersion);
    var equation :- TextAt(j, KEquationIdentityHash);
    var operands :- ListAt(j, KOperands, DecodeOperand);
    var outputData :- Get(j, KOutput);
    var output :- DecodeOutput(outputData);
    var roundingData :- Get(j, KRounding);
    var rounding :- DecodeRounding(roundingData);
    var constraints :- ListAt(j, KDomainConstraintIds, AsText);
    var scopeData :- Get(j, KApplicability);
    var scope :- DecodeApplicability(scopeData);
    var family :- TextAt(j, KContractFamily);
    var basis :- TextAt(j, KQuantityBasisSemanticId);
    var stop :- TextAt(j, KStopSemanticId);
    var multiplier :- TextAt(j, KMultiplierSemanticId);
    var profit :- MaybeOutputAt(j, KTakeProfitOutput);
    var profitId :- MaybeTextAt(j, KTakeProfitSemanticId);
    var loss :- MaybeOutputAt(j, KMaximumLossOutput);
    var lossId :- MaybeTextAt(j, KMaximumLossSemanticId);
    var multipliers :- ListAt(j, KAllowedMultipliers, AsDecimal);
    var s := Semantics(schema, id, version, equation, operands, output, rounding, constraints, scope, family, basis, stop,
                       multiplier, profit, profitId, loss, lossId, multipliers);
    if s.Valid() then Some(s) else None
  }

  lemma SemanticsRoundTrip(s: Semantics)
    requires s.Valid()
    ensures DecodeSemantics(EncodeSemantics(s)) == Some(s)
  {
    var j := EncodeSemantics(s);
    ScalarsRoundTrip(s);
    PartsRoundTrip(s);
    hide Semantics.Valid, EncodeSemantics, DecodeOutput, DecodeRounding, DecodeApplicability;
    hide TextAt, MaybeTextAt, IntAt, ListAt, MaybeOutputAt, Get;
  }

  lemma MaybeOutputField(j: Json, k: Key, o: Option<Output>)
    requires Holds(j, k, EncodeMaybeOutput(o)) && (o.Some? ==> o.value.Valid())
    ensures MaybeOutputAt(j, k) == Some(o)
  {
    if o.Some? { OutputRoundTrip(o.value); }
    hide DecodeOutput, Output.Valid;
  }

  lemma ScalarsRoundTrip(s: Semantics)
    ensures var j := EncodeSemantics(s);
            && IntAt(j, KSchemaVersion) == Some(s.schemaVersion) && TextAt(j, KSemanticId) == Some(s.semanticId)
            && IntAt(j, KSemanticVersion) == Some(s.semanticVersion) && TextAt(j, KEquationIdentityHash) == Some(s.equationIdentityHash)
            && TextAt(j, KContractFamily) == Some(s.contractFamily) && TextAt(j, KQuantityBasisSemanticId) == Some(s.quantityBasisSemanticId)
            && TextAt(j, KStopSemanticId) == Some(s.stopSemanticId) && TextAt(j, KMultiplierSemanticId) == Some(s.multiplierSemanticId)
            && MaybeTextAt(j, KTakeProfitSemanticId) == Some(s.takeProfitSemanticId)
            && MaybeTextAt(j, KMaximumLossSemanticId) == Some(s.maximumLossSemanticId)
  {
    hide TextAt, MaybeTextAt, IntAt, FromText, EncodeList, EncodeOutput, EncodeMaybeOutput, EncodeRounding, EncodeApplicability;
    var j := EncodeSemantics(s);
    IntField(j, KSchemaVersion, s.schemaVersion);
    TextField(j, KSemanticId, s.semanticId);
    IntField(j, KSemanticVersion, s.semanticVersion);
    TextField(j, KEquationIdentityHash, s.equationIdentityHash);
    TextField(j, KContractFamily, s.contractFamily);
    TextField(j, KQuantityBasisSemanticId, s.quantityBasisSemanticId);
    TextField(j, KStopSemanticId, s.stopSemanticId);
    TextField(j, KMultiplierSemanticId, s.multiplierSemanticId);
    MaybeTextField(j, KTakeProfitSemanticId, s.takeProfitSemanticId);
    MaybeTextField(j, KMaximumLossSemanticId, s.maximumLossSemanticId);
  }

  lemma PartsRoundTrip(s: Semantics)
    requires s.Valid()
    ensures var j := EncodeSemantics(s);
            && ListAt(j, KOperands, DecodeOperand) == Some(s.operands)
            && ListAt(j, KDomainConstraintIds, AsText) == Some(s.domainConstraintIds)
            && ListAt(j, KAllowedMultipliers, AsDecimal) == Some(s.allowedMultipliers)
            && Get(j, KOutput) == Some(EncodeOutput(s.output)) && DecodeOutput(EncodeOutput(s.output)) == Some(s.output)
            && Get(j, KRounding) == Some(EncodeRounding(s.rounding)) && DecodeRounding(EncodeRounding(s.rounding)) == Some(s.rounding)
            && Get(j, KApplicability) == Some(EncodeApplicability(s.applicability))
            && DecodeApplicability(EncodeApplicability(s.applicability)) == Some(s.applicability)
            && MaybeOutputAt(j, KTakeProfitOutput) == Some(s.takeProfitOutput)
            && MaybeOutputAt(j, KMaximumLossOutput) == Some(s.maximumLossOutput)
  {
    hide Semantics.Valid, Output.Valid, Operand.Valid, Rounding.Valid, Applicability.Valid;
    hide EncodeOutput, DecodeOutput, EncodeMaybeOutput, EncodeRounding, DecodeRounding, EncodeApplicability, DecodeApplicability;
    hide EncodeOperand, DecodeOperand, EncodeList, FromText, ListAt, MaybeOutputAt;
    PartsValid(s);
    OutputRoundTrip(s.output);
    RoundingRoundTrip(s.rounding);
    ApplicabilityRoundTrip(s.applicability);
    forall i | 0 <= i < |s.operands| ensures DecodeOperand(EncodeOperand(s.operands[i])) == Some(s.operands[i]) {
      OperandRoundTrip(s.operands[i]);
    }
    var j := EncodeSemantics(s);
    ListField(j, KOperands, s.operands, EncodeOperand, DecodeOperand);
    ListField(j, KDomainConstraintIds, s.domainConstraintIds, (t: string) => JText(t), AsText);
    ListField(j, KAllowedMultipliers, s.allowedMultipliers, (d: real) => JDecimal(d), AsDecimal);
    MaybeOutputField(j, KTakeProfitOutput, s.takeProfitOutput);
    MaybeOutputField(j, KMaximumLossOutput, s.maximumLossOutput);
  }

  lemma PartsValid(s: Semantics)
    requires s.Valid()
    ensures s.output.Valid() && s.rounding.Valid() && s.applicability.Valid()
    ensures forall i :: 0 <= i < |s.operands| ==> s.operands[i].Valid()
    ensures s.takeProfitOutput.Some? ==> s.takeProfitOutput.value.Valid()
    ensures s.maximumLossOutput.Some? ==> s.maximumLossOutput.value.Valid()
  {
  }
}
