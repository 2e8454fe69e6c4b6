/** The snapshot store (broker/deriv_proof_store.py): one row, overwritten only by states that extend it. */
module Store {
  import opened Prelude
  import opened Sorting
  import opened Evidence
  import opened Registration
  import opened Registry
  import opened RegistryRuns
  import opened DurableProofs
  import opened Codec
  import opened Payload

  datatype Row = Row(schemaVersion: int, payload: Json, payloadHash: string)

  /** The two hash functions the store relies on; nothing below needs more than that they are functions. */
  datatype Hashes = Hashes(sha: Hasher, digest: Json -> string)

  /** load */
  function LoadOf(row: Option<Row>, h: Hashes): Result<DurableState> {
    if row.None? then Ok(EMPTY_STATE)
    else if row.value.schemaVersion != 1 then Err("durable proof snapshot metadata is malformed")
    else if row.value.payloadHash != h.digest(row.value.payload) then Err("durable proof snapshot integrity check failed")
    else match DecodeState(row.value.payload, h.sha)
         case None => Err("durable proof snapshot is malformed")
         case Some(s) => Ok(s)
  }

  function FindRevocation(revocations: seq<Revocation>, id: string): (r: Option<Revocation>)
    ensures r.Some? ==> r.value in revocations && r.value.revocationId == id
    ensures r.None? ==> forall x :: x in revocations ==> x.revocationId != id
  {
    if revocations == [] then None
    else if revocations[0].revocationId == id then Some(revocations[0])
    else FindRevocation(revocations[1..], id)
  }

  predicate EntriesKept(current: DurableState, next: DurableState) {
    forall i :: 0 <= i < |current.registry.entries| ==>
      next.registry.GetHistorical(current.registry.entries[i].request.proofId) == Some(current.registry.entries[i])
  }

  predicate RevocationsKept(current: DurableState, next: DurableState) {
    forall i :: 0 <= i < |current.revocations| ==>
      FindRevocation(next.revocations, current.revocations[i].revocationId) == Some(current.revocations[i])
  }

  /** persist: the row it writes, or the error that leaves the store as it was. */
  function PersistOf(row: Option<Row>, state: DurableState, h: Hashes): Result<Row> {
    var payload := EncodeState(state);
    match DecodeState(payload, h.sha)
    case None => Err("durable proof snapshot is malformed")
    case Some(rebuilt) =>
      match LoadOf(row, h)
      case Err(e) => Err(e)
      case Ok(current) =>
        if !EntriesKept(current, rebuilt) then Err("persisted proof authority cannot be altered or removed")
        else if !RevocationsKept(current, rebuilt) then Err("persisted revocation authority cannot be altered or removed")
        else Ok(Row(1, payload, h.digest(payload)))
  }

  class ProofStore {
    const hashes: Hashes
    var row: Option<Row>

    constructor (hashes: Hashes)
      ensures this.hashes == hashes && row == None
    {
      this.hashes, row := hashes, None;
    }

    /**
      An absent row is the empty state. A row loads exactly when its version is 1, its digest is that
      of its payload and the payload is the encoding of a valid state whose material hashes match;
      then that state, and no other, is what is loaded.
    */
    method Load() returns (r: Result<DurableState>)
      ensures r == LoadOf(row, hashes)
      ensures row.None? ==> r == Ok(EMPTY_STATE)
      ensures r.Ok? ==> r.value.Valid() && AllMaterialMatches(r.value, hashes.sha)
      ensures row.Some? ==> forall s: DurableState :: Snapshot(row.value, s, hashes) <==> r == Ok(s)
    {
      hide DecodeState, EncodeState, DurableState.Valid, AllMaterialMatches, Snapshot;
      if LoadOf(row, hashes).Ok? {
        LoadedIsValid(row, hashes);
      }
      if row.Some? {
        forall s: DurableState ensures Snapshot(row.value, s, hashes) <==> LoadOf(row, hashes) == Ok(s) {
          LoadedIffSnapshot(row.value, s, hashes);
        }
      }
      if row.None? {
        return Ok(EMPTY_STATE);
      }
      if row.value.schemaVersion != 1 {
        return Err("durable proof snapshot metadata is malformed");
      }
      if row.value.payloadHash != hashes.digest(row.value.payload) {
        return Err("durable proof snapshot integrity check failed");
      }
      var decoded := DecodeState(row.value.payload, hashes.sha);
      if decoded.None? {
        return Err("durable proof snapshot is malformed");
      }
      return Ok(decoded.value);
    }

    /** A rejected persist leaves the row untouched; an accepted one makes the given state what Load returns. */
    method Persist(state: DurableState) returns (r: Result<DurableState>)
      requires state.Valid()
      modifies this
      ensures r.Ok? <==> PersistOf(old(row), state, hashes).Ok?
      ensures r.Ok? ==> r.value == state && LoadOf(row, hashes) == Ok(state)
      ensures r.Ok? ==> LoadOf(old(row), hashes).Ok? && Grows(LoadOf(old(row), hashes).value, state)
      ensures r.Err? ==> row == old(row)
    {
      hide DecodeState, EncodeState, EntriesKept, RevocationsKept, DurableState.Valid;
      PersistIff(row, state, hashes);
      if PersistOf(row, state, hashes).Ok? {
        PersistThenLoad(row, state, hashes);
      }
      var payload := EncodeState(state);
      var rebuilt := DecodeState(payload, hashes.sha);
      if rebuilt.None? {
        return Err("durable proof snapshot is malformed");
      }
      var current := Load();
      if current.Err? {
        return Err(current.error);
      }
      if !EntriesKept(current.value, rebuilt.value) {
        return Err("persisted proof authority cannot be altered or removed");
      }
      if !RevocationsKept(current.value, rebuilt.value) {
        return Err("persisted revocation authority cannot be altered or removed");
      }
      row := Some(Row(1, payload, hashes.digest(payload)));
      return Ok(rebuilt.value);
    }
  }

  // ---------------------------------------------------------------- one persist

  lemma RevocationIsUnique(s: DurableState, r: Revocation)
    requires s.Valid() && r in s.revocations
    ensures FindRevocation(s.revocations, r.revocationId) == Some(r)
  {
    hide FindRevocation, Sorted, ProofRegistry.Valid, Consistent, Revocation.Valid;
    var found := FindRevocation(s.revocations, r.revocationId).value;
    var i :| 0 <= i < |s.revocations| && s.revocations[i] == r;
    var j :| 0 <= j < |s.revocations| && s.revocations[j] == found;
    assert RevocationIds(s.revocations)[i] == RevocationIds(s.revocations)[j];
  }

  /** The identity-keyed comparison is exactly inclusion. */
  lemma KeptIffGrows(current: DurableState, next: DurableState)
    requires next.Valid()
    ensures EntriesKept(current, next) && RevocationsKept(current, next) <==> Grows(current, next)
  {
    hide DurableState.Valid, ProofRegistry.GetHistorical, FindRevocation;
    if Grows(current, next) {
      forall i | 0 <= i < |current.registry.entries|
        ensures next.registry.GetHistorical(current.registry.entries[i].request.proofId) == Some(current.registry.entries[i])
      {
        RegistryOf(next);
        HistoricalIsUnique(next.registry, current.registry.entries[i]);
      }
      forall i | 0 <= i < |current.revocations|
        ensures FindRevocation(next.revocations, current.revocations[i].revocationId) == Some(current.revocations[i])
      {
        RevocationIsUnique(next, current.revocations[i]);
      }
    }
    if EntriesKept(current, next) && RevocationsKept(current, next) {
      forall e | e in current.registry.entries ensures e in next.registry.entries {
        var i :| 0 <= i < |current.registry.entries| && current.registry.entries[i] == e;
      }
      forall r | r in current.revocations ensures r in next.revocations {
        var i :| 0 <= i < |current.revocations| && current.revocations[i] == r;
      }
    }
  }

  lemma RegistryOf(s: DurableState)
    requires s.Valid()
    ensures s.registry.Valid()
  {
  }

  /** What is loaded is always a valid state. */
  lemma LoadedIsValid(row: Option<Row>, h: Hashes)
    requires LoadOf(row, h).Ok?
    ensures LoadOf(row, h).value.Valid() && AllMaterialMatches(LoadOf(row, h).value, h.sha)
  {
    hide DecodeStateParts, EncodeState, AllMaterialMatches;
    if row.Some? {
      var s := LoadOf(row, h).value;
      StateRoundTrip(s, h.sha);
    } else {
      EmptyIsValid(h.sha);
    }
  }

  lemma EmptyIsValid(sha: Hasher)
    ensures EMPTY_STATE.Valid() && AllMaterialMatches(EMPTY_STATE, sha)
  {
  }

  /** The row is a faithful snapshot of this state. */
  ghost predicate Snapshot(row: Row, s: DurableState, h: Hashes) {
    && row.schemaVersion == 1 && row.payloadHash == h.digest(row.payload)
    && s.Valid() && AllMaterialMatches(s, h.sha) && row.payload == EncodeState(s)
  }

  /** What a present row loads as, in terms of encoding alone. */
  lemma LoadedIffSnapshot(row: Row, s: DurableState, h: Hashes)
    ensures Snapshot(row, s, h) <==> LoadOf(Some(row), h) == Ok(s)
  {
    hide DecodeState, EncodeState, DurableState.Valid, AllMaterialMatches;
    if s.Valid() {
      StateRoundTrip(s, h.sha);
    }
    if LoadOf(Some(row), h) == Ok(s) {
      LoadedIsValid(Some(row), h);
    }
  }

  /** A persist is accepted exactly when the store loads, the state extends it, and every material hash matches. */
  lemma PersistIff(row: Option<Row>, state: DurableState, h: Hashes)
    requires state.Valid()
    ensures PersistOf(row, state, h).Ok? <==>
            AllMaterialMatches(state, h.sha) && LoadOf(row, h).Ok? && Grows(LoadOf(row, h).value, state)
  {
    hide DecodeState, EncodeState, EntriesKept, RevocationsKept, DurableState.Valid, AllMaterialMatches, Grows;
    StateRoundTrip(state, h.sha);
    if LoadOf(row, h).Ok? {
      KeptIffGrows(LoadOf(row, h).value, state);
    }
  }

  lemma PersistThenLoad(row: Option<Row>, state: DurableState, h: Hashes)
    requires state.Valid() && PersistOf(row, state, h).Ok?
    ensures LoadOf(Some(PersistOf(row, state, h).value), h) == Ok(state)
  {
    hide DecodeState, EncodeState, EntriesKept, RevocationsKept, DurableState.Valid, AllMaterialMatches;
    StateRoundTrip(state, h.sha);
  }

  // ---------------------------------------------------------------- any sequence of persists

  ghost predicate AllStatesValid(states: seq<DurableState>) {
    forall i :: 0 <= i < |states| ==> states[i].Valid()
  }

  /** The row after one persist call, accepted or not. */
  function AfterPersist(row: Option<Row>, state: DurableState, h: Hashes): Option<Row> {
    match PersistOf(row, state, h) case Ok(next) => Some(next) case Err(_) => row
  }

  function AfterPersists(row: Option<Row>, states: seq<DurableState>, h: Hashes): Option<Row> {
    if states == [] then row else AfterPersist(AfterPersists(row, Init(states), h), Last(states), h)
  }

  /** A loadable store stays loadable and only ever grows. */
  lemma {:induction false} StoreOnlyGrows(row: Option<Row>, states: seq<DurableState>, h: Hashes)
    requires LoadOf(row, h).Ok? && AllStatesValid(states)
    ensures var after := AfterPersists(row, states, h);
            LoadOf(after, h).Ok? && Grows(LoadOf(row, h).value, LoadOf(after, h).value)
  {
    hide LoadOf, PersistOf, DurableState.Valid;
    if states != [] {
      StoreOnlyGrows(row, Init(states), h);
      var before := AfterPersists(row, Init(states), h);
      PersistIff(before, Last(states), h);
      if PersistOf(before, Last(states), h).Ok? {
        PersistThenLoad(before, Last(states), h);
      }
    }
  }

  /** Along any persists the lookup of a scope climbs NoEntry, Active, Revoked, Conflicting and never descends. */
  lemma LookupOnlyClimbs(row: Option<Row>, states: seq<DurableState>, h: Hashes, a: Applicability)
    requires LoadOf(row, h).Ok? && AllStatesValid(states)
    ensures var after := AfterPersists(row, states, h);
            && LoadOf(after, h).Ok?
            && var s, t := LoadOf(row, h).value, LoadOf(after, h).value;
               Rank(Lookup(s.registry, a, s.revocations).state) <= Rank(Lookup(t.registry, a, t.revocations).state)
  {
    hide LoadOf, AfterPersists, DurableState.Valid, Lookup, Rank;
    StoreOnlyGrows(row, states, h);
    var after := AfterPersists(row, states, h);
    LoadedIsValid(row, h);
    LoadedIsValid(after, h);
    LookupOnlyRises(LoadOf(row, h).value, LoadOf(after, h).value, a);
  }
}
