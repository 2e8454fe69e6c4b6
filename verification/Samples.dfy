/** Concrete governance records: the premises of the general results can be met, and two gaps are real. */
module Samples {
  import opened Prelude
  import opened Texts
  import opened Evidence
  import opened EvidenceReview
  import opened EvidenceSoundness
  import opened Registration
  import opened Registry
  import opened Attempts
  import opened Payload
  import opened Store
  import opened TermsService
  import opened Governance
  import opened Pipeline

  // ---------------------------------------------------------------- sample semantics

  /** A hash of one digit throughout. */
  function HashOf(digit: char): string {
    "sha256:" + seq(64, i requires 0 <= i < 64 => digit)
  }

  const HASH := HashOf('0')
  const OTHER_HASH := HashOf('1')

  const SCOPE := Applicability("deriv", Some("MULTUP"), Some("X"), Some("U"), Some("demo"), Some("Q"), Some("S"), Some("M"), Some("Y"))

  const STAKE := Operand("O", "O", StakeCurrencyAmount, Base, 0, true, Positive, None, None, false, true, false)

  function InAccountCurrency(semantic: OutputSemantic): Output {
    Output(semantic, AccountCurrencyAmount, AccountCurrencyBinding, None, false, true)
  }

  const SAMPLE := Semantics(
    1, "I", 1, HASH, [STAKE], InAccountCurrency(MonetaryLoss), Rounding(false, None, NoMode, NoStage), [], SCOPE,
    "MULTUP", "Q", "S", "M", Some(InAccountCurrency(MonetaryProfit)), Some("T"),
    Some(InAccountCurrency(MaximumMonetaryLoss)), Some("N"), [100.0])

  lemma HashIsHash()
    ensures IsHash(HASH) && IsHash(OTHER_HASH) && HASH != OTHER_HASH
  {
    assert HASH[..7] == "sha256:" && OTHER_HASH[..7] == "sha256:";
    assert forall i :: 7 <= i < 71 ==> HASH[i] == '0' && OTHER_HASH[i] == '1';
    assert HASH[7] != OTHER_HASH[7];
  }

  lemma BrokerIsDeriv()
    ensures LowerText(Strip("deriv")) == "deriv"
  {
    assert Strip("deriv") == "deriv";
    assert LowerText("deriv") == "deriv";
  }

  lemma ScopeTexts()
    ensures NonBlank("MULTUP") && NonBlank("demo")
    ensures NonBlank("X") && NonBlank("U") && NonBlank("Q") && NonBlank("S") && NonBlank("M") && NonBlank("Y")
  {
    SolidIsNonBlank("MULTUP");
    SolidIsNonBlank("demo");
    LetterIsSolid('X');
    LetterIsSolid('U');
    LetterIsSolid('Q');
    LetterIsSolid('S');
    LetterIsSolid('M');
    LetterIsSolid('Y');
    hide NonBlank;
  }

  lemma ScopeIsComplete()
    ensures SCOPE.Complete() && SCOPE.Valid()
  {
    hide NonBlank, Strip, LowerText;
    BrokerIsDeriv();
    ScopeTexts();
  }

  lemma SamplePartsAreValid()
    ensures STAKE.Valid() && ExtraValid(SAMPLE.takeProfitOutput, SAMPLE.takeProfitSemanticId, MonetaryProfit)
    ensures ExtraValid(SAMPLE.maximumLossOutput, SAMPLE.maximumLossSemanticId, MaximumMonetaryLoss)
    ensures InAccountCurrency(MonetaryLoss).Valid() && NonBlank("I")
  {
    LetterIsSolid('I');
    LetterIsSolid('O');
    LetterIsSolid('T');
    LetterIsSolid('N');
    hide NonBlank;
  }

  lemma SampleIsValid()
    ensures SAMPLE.Valid()
  {
    hide NonBlank, IsHash, Applicability.Complete, Applicability.Valid, Operand.Valid, Output.Valid, ExtraValid, Before;
    HashIsHash();
    ScopeIsComplete();
    ScopeTexts();
    SamplePartsAreValid();
  }


  // ---------------------------------------------------------------- requests for it

  function LineageWith(model: string, ids: seq<string>, hashes: seq<string>, at: int, sha: Hasher): Lineage {
    Lineage("K", sha(SAMPLE), model, 1, "E", "M", "D", ids, hashes, ["C"], SCOPE, at, at + 1, Some(SAMPLE))
  }

  function RequestWith(model: string, ids: seq<string>, hashes: seq<string>, at: int, sha: Hasher): Request {
    Request(1, "Q", "P", "V", LineageWith(model, ids, hashes, at, sha), "G", 0)
  }

  function ServiceAt(at: int): ServiceRequest {
    ServiceRequest(SCOPE, at, 10.0, Some(Propositions(1.0, 100.0, 1.0, 1.0, Some(5.0))), None)
  }

  lemma RequestTexts()
    ensures NonBlank("K") && NonBlank("E") && NonBlank("M") && NonBlank("D")
    ensures NonBlank("Q") && NonBlank("P") && NonBlank("V") && NonBlank("G")
  {
    LetterIsSolid('K');
    LetterIsSolid('E');
    LetterIsSolid('M');
    LetterIsSolid('D');
    LetterIsSolid('Q');
    LetterIsSolid('P');
    LetterIsSolid('V');
    LetterIsSolid('G');
    hide NonBlank;
  }

  lemma RequestIsValid(model: string, ids: seq<string>, hashes: seq<string>, at: int, sha: Hasher)
    requires IsHash(sha(SAMPLE)) && NonBlank(model) && EvidenceTuples(ids, hashes, ["C"]) && ids != []
    ensures RequestWith(model, ids, hashes, at, sha).Valid()
  {
    hide NonBlank, IsHash, EvidenceTuples, Semantics.Valid, Applicability.Complete;
    RequestTexts();
    ScopeIsComplete();
    SampleIsValid();
  }

  lemma OneTuple(id: string, hash: string)
    requires NonBlank(id) && IsHash(hash)
    ensures EvidenceTuples([id], [hash], ["C"])
  {
    LetterIsSolid('C');
    hide NonBlank, IsHash;
  }

  lemma SampleSupports()
    ensures Suits(SAMPLE, 100.0)
  {
  }

  lemma SampleServes(model: string, ids: seq<string>, hashes: seq<string>, at: int, sha: Hasher)
    ensures Serves(EntryOf(RequestWith(model, ids, hashes, at, sha)), ServiceAt(at))
  {
    SampleSupports();
    hide Suits;
  }

  /** Whatever well-formed digest is used, some request and service call meet the premises of PipelineCompletes. */
  lemma PremisesCanBeMet(sha: Hasher, at: int)
    requires IsHash(sha(SAMPLE))
    ensures var request := RequestWith("I", ["A"], [HASH], at, sha);
            request.Valid() && Admissible(request, sha) && Serves(EntryOf(request), ServiceAt(at))
  {
    LetterIsSolid('A');
    LetterIsSolid('I');
    hide NonBlank, IsHash, Serves, Request.Valid, Strip;
    HashIsHash();
    OneTuple("A", HASH);
    RequestIsValid("I", ["A"], [HASH], at, sha);
    SampleServes("I", ["A"], [HASH], at, sha);
  }

  // ---------------------------------------------------------------- terms without an admission

  /**
    An entry under another loss model identity than its semantics declare: no sequence of admissions
    produces it, yet the store takes it and the service offers terms for it.
  */
  lemma UnadmittedObtainsTerms(h: Hashes, at: int)
    requires IsHash(h.sha(SAMPLE))
    ensures var e := EntryOf(RequestWith("Z", ["A"], [HASH], at, h.sha));
            && e.Valid() && !CanBeAdmitted(e, h.sha) && PersistOf(None, StateOf(e), h).Ok?
            && exists t :: Evaluate(RowOf(e, h), ServiceAt(at), h) == Ok(ServiceResult(TermsAvailable, Some(t)))
  {
    LetterIsSolid('A');
    LetterIsSolid('Z');
    HashIsHash();
    OneTuple("A", HASH);
    RequestIsValid("Z", ["A"], [HASH], at, h.sha);
    SampleServes("Z", ["A"], [HASH], at, h.sha);
    var e := EntryOf(RequestWith("Z", ["A"], [HASH], at, h.sha));
    Misnamed(h.sha, at);
    hide *;
    EntryOfValid(RequestWith("Z", ["A"], [HASH], at, h.sha));
    StoredEntryGetsTerms(e, ServiceAt(at), h);
    CanBeAdmittedIff(e, h.sha);
  }

  lemma Misnamed(sha: Hasher, at: int)
    ensures var e := EntryOf(RequestWith("Z", ["A"], [HASH], at, sha)); MaterialMatches(e, sha) && !Admissible(e.request, sha)
  {
    hide NamesAgree;
  }

  lemma EntryOfValid(request: Request)
    requires request.Valid()
    ensures EntryOf(request).Valid()
  {
    hide Request.Valid;
  }

  // ---------------------------------------------------------------- a rejected claim behind an admission

  function Good(sha: Hasher): Claim {
    Claim("C", "A", LossModelDescriptionIdentity, "L", sha(SAMPLE), SCOPE, Reviewed)
  }

  /** The same identity and subject in another artifact, rejected and with another value. */
  function Bad(): Claim {
    Claim("C", "B", LossModelDescriptionIdentity, "L", "X", SCOPE, Rejected)
  }

  function ArtifactWith(id: string, hash: string, claim: Claim): Artifact {
    Artifact(1, id, "S", "T", "P", 0, hash, [claim], Reviewed, None)
  }

  function Shadowed(sha: Hasher): EvidenceRegistry {
    EvidenceRegistry([ArtifactWith("B", OTHER_HASH, Bad()), ArtifactWith("A", HASH, Good(sha))])
  }

  lemma ClaimTexts()
    ensures NonBlank("A") && NonBlank("B") && NonBlank("C") && NonBlank("L") && NonBlank("S") && NonBlank("T") && NonBlank("P") && NonBlank("X")
    ensures Strip("A") == "A" && Strip("B") == "B"
  {
    LetterIsSolid('A');
    LetterIsSolid('B');
    LetterIsSolid('C');
    LetterIsSolid('L');
    LetterIsSolid('S');
    LetterIsSolid('T');
    LetterIsSolid('P');
    LetterIsSolid('X');
    hide NonBlank, Strip;
  }

  lemma ShadowedIsValid(sha: Hasher)
    requires IsHash(sha(SAMPLE))
    ensures Shadowed(sha).Valid() && EvidenceTuples(["B", "A"], [OTHER_HASH, HASH], ["C"])
  {
    hide NonBlank, IsHash, Strip, Applicability.Valid, Applicability.Complete;
    ClaimTexts();
    HashIsHash();
    ScopeIsComplete();
    HashIsNonBlank(sha(SAMPLE));
  }

  lemma ShadowedSelection(sha: Hasher)
    ensures SelectedClaims(Shadowed(sha), ["B", "A"], ["C"]) == [Good(sha)]
  {
    hide Strip, NonBlank;
    ClaimTexts();
    var registry := Shadowed(sha);
    var b, a := registry.artifacts[0], registry.artifacts[1];
    assert registry.GetById("B") == Some(b);
    assert registry.artifacts[1..] == [a];
    assert registry.GetById("A") == Some(a);
    assert Init(["B"]) == [] && Init(["B", "A"]) == ["B"];
    assert Resolve(registry, []) == [];
    assert Resolve(registry, ["B"]) == [b];
    assert Resolve(registry, ["B", "A"]) == [b, a];
    OneClaim(map[], Bad());
    OneClaim(map["C" := Bad()], Good(sha));
    hide AddClaims, Resolve;
    assert Init([b, a]) == [b] && Init([b]) == [];
    assert ClaimIndex([b]) == map["C" := Bad()];
    var index := ClaimIndex([b, a]);
    assert index == map["C" := Good(sha)];
    assert Init(["C"]) == [] && Select(index, []) == [];
    assert Select(index, ["C"]) == [] + [index["C"]];
    assert SelectedClaims(registry, ["B", "A"], ["C"]) == Select(index, ["C"]);
  }

  lemma OneClaim(index: map<string, Claim>, c: Claim)
    ensures AddClaims(index, [c]) == index[c.claimId := c]
  {
    assert Init([c]) == [];
    assert AddClaims(index, []) == index;
  }

  lemma ShadowedIsSound(sha: Hasher)
    ensures EvidenceSound(Shadowed(sha), ["B", "A"], [OTHER_HASH, HASH], ["C"], SCOPE, Some(SAMPLE), sha)
  {
    hide Strip, NonBlank, SelectedClaims;
    ClaimTexts();
    ShadowedSelection(sha);
    var registry := Shadowed(sha);
    var b, a := registry.artifacts[0], registry.artifacts[1];
    assert Backs(registry, b, "B", OTHER_HASH) && Backs(registry, a, "A", HASH);
    assert a in registry.artifacts && Good(sha) in a.claims;
  }

  /**
    Two reviewed artifacts carry the same claim identity; the first claim is rejected and contradicts the
    second. The attempt that lists both is sound to every stage and admitted, though its evidence is not
    all sound.
  */
  lemma RejectedClaimIsAdmitted(sha: Hasher, at: int)
    requires IsHash(sha(SAMPLE))
    ensures var x := AttemptOn(RequestWith("I", ["B", "A"], [OTHER_HASH, HASH], at, sha), Shadowed(sha));
            && x.Valid(sha) && |x.decision.artifactIds| == |x.decision.hashes|
            && Admit(EMPTY_REGISTRY, x, sha).state.Admitted?
            && !FullySound(x.evidence, EvidenceOf(x.request.lineage), sha)
  {
    var request := RequestWith("I", ["B", "A"], [OTHER_HASH, HASH], at, sha);
    var x := AttemptOn(request, Shadowed(sha));
    BadIsCited(sha, at);
    LetterIsSolid('I');
    ShadowedIsValid(sha);
    ShadowedIsSound(sha);
    hide NonBlank, IsHash, EvidenceTuples, EvidenceSound, EvidenceRegistry.Valid, Request.Valid, Sound, Attempt.Valid, FullySound, Admit, Shadowed;
    RequestIsValid("I", ["B", "A"], [OTHER_HASH, HASH], at, sha);
    AttemptOnValid(request, Shadowed(sha), sha);
    AttemptOnSound(request, Shadowed(sha), sha);
    SoundIsAdmitted(x, sha);
  }

  lemma BadIsCited(sha: Hasher, at: int)
    ensures !FullySound(Shadowed(sha), EvidenceOf(LineageWith("I", ["B", "A"], [OTHER_HASH, HASH], at, sha)), sha)
  {
    hide Strip, NonBlank, ArtifactsReviewed, Contradict, Declares;
    ClaimTexts();
    var registry, l := Shadowed(sha), EvidenceOf(LineageWith("I", ["B", "A"], [OTHER_HASH, HASH], at, sha));
    var b := registry.artifacts[0];
    assert b.artifactId == Strip(l.artifactIds[0]);
    assert Cited(registry, l, b, Bad());
    assert !InScope(Bad(), l.applicability);
  }
}
