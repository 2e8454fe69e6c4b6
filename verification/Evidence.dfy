/** Evidence records and declared financial semantics (broker/deriv_evidence.py, broker/deriv_financial_semantics.py). */
module Evidence {
  import opened Prelude
  import opened Texts

  function Lower(c: char): char {
    if 'A' <= c <= 'Z' then (c as int + 32) as char else c
  }

  function LowerText(s: string): string {
    seq(|s|, i requires 0 <= i < |s| => Lower(s[i]))
  }

  datatype Applicability = Applicability(
    broker: string, contractFamily: Option<string>, symbol: Option<string>, accountCurrency: Option<string>,
    environment: Option<string>, quantityBasis: Option<string>, stopLossSemanticId: Option<string>,
    multiplierSemanticsId: Option<string>, symbolCapabilityScope: Option<string>)
  {
    predicate Valid() {
      && LowerText(Strip(broker)) == "deriv"
      && OptionalText(contractFamily) && OptionalText(symbol) && OptionalText(accountCurrency)
      && OptionalText(environment) && OptionalText(quantityBasis) && OptionalText(stopLossSemanticId)
      && OptionalText(multiplierSemanticsId) && OptionalText(symbolCapabilityScope)
    }

    /** Exact scope: every field present, environment demo or real. */
    predicate Complete() {
      && Valid()
      && RequiredText(contractFamily) && RequiredText(symbol) && RequiredText(accountCurrency)
      && RequiredText(environment) && RequiredText(quantityBasis) && RequiredText(stopLossSemanticId)
      && RequiredText(multiplierSemanticsId) && RequiredText(symbolCapabilityScope)
      && environment.value in {"demo", "real"}
    }
  }

  datatype ReviewState = Unreviewed | Reviewed | Rejected

  datatype ClaimType =
    | ContractFamilyAvailability | QuantityBasisSemantics | StopLossSemantics | MultiplierSemantics
    | SymbolEligibility | DurationRequirements | CurrencySemantics | MinimumStake
    | StakeIncrementPrecision | LossModelDescriptionIdentity

  datatype Claim = Claim(claimId: string, artifactId: string, claimType: ClaimType, subject: string, value: string,
                         applicability: Applicability, reviewState: ReviewState)
  {
    predicate Valid() {
      NonBlank(claimId) && NonBlank(artifactId) && NonBlank(subject) && NonBlank(value) && applicability.Valid()
    }
  }

  datatype Artifact = Artifact(
    schemaVersion: int, artifactId: string, sourceIdentifier: string, sourceTitle: string, sourcePublisher: string,
    recordedDate: int, contentHash: string, claims: seq<Claim>, reviewState: ReviewState, sourceVersion: Option<string>)
  {
    predicate Valid() {
      && schemaVersion == 1
      && NonBlank(artifactId) && NonBlank(sourceIdentifier) && NonBlank(sourceTitle) && NonBlank(sourcePublisher)
      && OptionalText(sourceVersion) && IsHash(contentHash)
      && (forall i :: 0 <= i < |claims| ==> claims[i].Valid() && claims[i].artifactId == artifactId)
      && (forall i, j :: 0 <= i < j < |claims| ==> claims[i].claimId != claims[j].claimId)
    }
  }

  datatype EvidenceRegistry = EvidenceRegistry(artifacts: seq<Artifact>)
  {
    predicate Valid() {
      && (forall i :: 0 <= i < |artifacts| ==> artifacts[i].Valid())
      && (forall i, j :: 0 <= i < j < |artifacts| ==>
            artifacts[i].artifactId != artifacts[j].artifactId && artifacts[i].contentHash != artifacts[j].contentHash)
    }

    /** get_by_id: the first artifact carrying the stripped identity. */
    function GetById(id: string): (r: Option<Artifact>)
      ensures r.Some? ==> r.value in artifacts && r.value.artifactId == Strip(id)
      ensures r.None? ==> forall a :: a in artifacts ==> a.artifactId != Strip(id)
    {
      Find(artifacts, Strip(id))
    }

    static function Find(artifacts: seq<Artifact>, id: string): (r: Option<Artifact>)
      ensures r.Some? ==> r.value in artifacts && r.value.artifactId == id
      ensures r.None? ==> forall a :: a in artifacts ==> a.artifactId != id
    {
      if artifacts == [] then None
      else if artifacts[0].artifactId == id then Some(artifacts[0])
      else Find(artifacts[1..], id)
    }
  }

  // ---------------------------------------------------------------- financial semantics

  datatype OperandRole = Factor | Rate | Base
  datatype Unit = AccountCurrencyAmount | StakeCurrencyAmount | Price | PriceDistance | Ratio | Multiplier | ContractQuantity | Percentage
  datatype Domain = Positive | Nonnegative | Signed | Unknown
  datatype OutputSemantic = MonetaryLoss | MaximumMonetaryLoss | MonetaryProfit
  datatype CurrencyBinding = AccountCurrencyBinding | ExplicitCurrency | NotApplicable
  datatype RoundingMode = NoMode | RoundFloor | RoundCeiling | RoundHalfEven
  datatype RoundingStage = NoStage | EachOperation | FinalOutput

  datatype Operand = Operand(
    operandId: string, semanticId: string, unit: Unit, role: OperandRole, position: int, required: bool, domain: Domain,
    lowerBound: Option<real>, upperBound: Option<real>, zeroAllowed: bool, currencyBound: bool, multiplierBound: bool)
  {
    predicate Valid() {
      && NonBlank(operandId) && NonBlank(semanticId) && position >= 0
      && (lowerBound.Some? && upperBound.Some? ==> lowerBound.value <= upperBound.value)
      && !(domain.Positive? && zeroAllowed)
    }
  }

  datatype Output = Output(semantic: OutputSemantic, unit: Unit, binding: CurrencyBinding,
                           explicitCurrency: Option<string>, signed: bool, zeroAllowed: bool)
  {
    predicate Valid() {
      if binding.ExplicitCurrency? then RequiredText(explicitCurrency) else explicitCurrency.None?
    }
  }

  datatype Rounding = Rounding(required: bool, precision: Option<int>, mode: RoundingMode, stage: RoundingStage)
  {
    predicate Valid() {
      if required then precision.Some? && precision.value >= 0 && !mode.NoMode? && !stage.NoStage?
      else precision.None? && mode.NoMode? && stage.NoStage?
    }
  }

  datatype Semantics = Semantics(
    schemaVersion: int, semanticId: string, semanticVersion: int, equationIdentityHash: string, operands: seq<Operand>,
    output: Output, rounding: Rounding, domainConstraintIds: seq<string>, applicability: Applicability,
    contractFamily: string, quantityBasisSemanticId: string, stopSemanticId: string, multiplierSemanticId: string,
    takeProfitOutput: Option<Output>, takeProfitSemanticId: Option<string>,
    maximumLossOutput: Option<Output>, maximumLossSemanticId: Option<string>, allowedMultipliers: seq<real>)
  {
    predicate Valid() {
      && schemaVersion == 1 && NonBlank(semanticId) && semanticVersion > 0 && IsHash(equationIdentityHash)
      && operands != []
      && (forall i :: 0 <= i < |operands| ==> operands[i].Valid() && operands[i].position == i)
      && (forall i, j :: 0 <= i < j < |operands| ==> operands[i].operandId != operands[j].operandId)
      && output.Valid() && rounding.Valid()
      && (forall i :: 0 <= i < |domainConstraintIds| ==> NonBlank(domainConstraintIds[i])) && Ascending(domainConstraintIds)
      && applicability.Valid()
      && ExtraValid(takeProfitOutput, takeProfitSemanticId, MonetaryProfit)
      && ExtraValid(maximumLossOutput, maximumLossSemanticId, MaximumMonetaryLoss)
      && (forall i :: 0 <= i < |allowedMultipliers| ==> allowedMultipliers[i] > 0.0)
      && (forall i, j :: 0 <= i < j < |allowedMultipliers| ==> allowedMultipliers[i] < allowedMultipliers[j])
      && applicability.contractFamily == Some(contractFamily) && NonBlank(contractFamily)
      && applicability.quantityBasis == Some(quantityBasisSemanticId) && NonBlank(quantityBasisSemanticId)
      && applicability.stopLossSemanticId == Some(stopSemanticId) && NonBlank(stopSemanticId)
      && applicability.multiplierSemanticsId == Some(multiplierSemanticId) && NonBlank(multiplierSemanticId)
    }
  }

  predicate ExtraValid(output: Option<Output>, id: Option<string>, semantic: OutputSemantic) {
    if output.None? then id.None?
    else output.value.Valid() && RequiredText(id) && output.value.semantic == semantic && output.value.unit.AccountCurrencyAmount?
  }

  /** SHA-256 of the canonical rendering; any function of the record will do for what follows. */
  type Hasher = Semantics -> string
}
