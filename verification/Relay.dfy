/**
  The monitor relay's origin reads (api/monitor_relay.py, fetch_observation and observation): three
  semaphores, a map of pending reads that identical requests share, and tasks that any scheduler may
  interleave between their awaits. A task's steps are the stretches of code between two awaits.
*/
module Relay {
  import opened Prelude
  import opened Sorting

  // ---------------------------------------------------------------- requests and keys

  const HEALTH := "/api/v1/observation/health"
  const CHART := "/api/v1/market/active-analysis"
  const QUERY_LIMIT: nat := 2048
  const PENDING_LIMIT: nat := 32

  const ALLOWED: map<string, set<string>> := map[
    "/api/v1/journal" := {"limit", "symbol"},
    "/api/v1/market/candles" := {"symbol", "timeframe", "count"},
    HEALTH := {},
    "/api/v1/market/summary" := {"symbol", "timeframe", "count"},
    "/api/v1/signal" := {"symbol", "timeframe", "count"},
    "/api/v1/market/setup" := {"symbol", "timeframe", "count"},
    CHART := {"symbol", "timeframe", "count"},
    "/api/v1/risk" := {"symbol", "timeframe", "count"},
    "/api/v1/brokers/terminal-observation" := {"symbol", "timeframe", "count"},
    "/api/v1/system" := {},
    "/api/v1/execution" := {},
    "/api/v1/execution/safety" := {},
    "/api/v1/execution/recovery" := {},
    "/api/v1/execution/paper-runtime" := {},
    "/api/v1/performance" := {},
    "/api/v1/brokers/status" := {},
    "/api/v1/watchlist" := {},
    "/api/v1/monitoring/offline" := {},
    "/api/v1/notifications/status" := {},
    "/api/v1/research/paper-diagnostics" := {},
    "/api/v1/watchlist/cap-usage" := {"account_scope"}
  ]

  datatype Param = Param(name: string, value: string)

  /** A request: its path, the length of its query text and the parameters parsed from it. */
  datatype Request = Request(path: string, queryLength: nat, params: seq<Param>)

  /** The boundary's route and query tests, for the routes that observation serves. */
  predicate Accepted(r: Request) {
    && r.path in ALLOWED
    && r.queryLength <= QUERY_LIMIT
    && forall i :: 0 <= i < |r.params| ==> r.params[i].name in ALLOWED[r.path]
  }

  datatype Key = Key(path: string, query: seq<Param>)

  function KeyOf(r: Request): Key {
    Key(r.path, Sorted(r.params, (p: Param) => p.name))
  }

  const HEALTH_KEY := Key(HEALTH, [])

  lemma ParamsNeedNames(params: seq<Param>, names: set<string>)
    requires forall i :: 0 <= i < |params| ==> params[i].name in names
    ensures params == [] || names != {}
  {
    if params != [] {
      assert params[0].name in names;
    }
  }

  /** Only one health key can exist. */
  lemma OneHealthKey(r: Request)
    requires Accepted(r)
    ensures KeyOf(r).path == HEALTH ==> KeyOf(r) == HEALTH_KEY
  {
    hide Insert;
    if r.path == HEALTH {
      assert ALLOWED[HEALTH] == {};
      ParamsNeedNames(r.params, ALLOWED[HEALTH]);
    }
  }

  /** Requests that share a read ask the same route for the same parameters. */
  lemma SharedReadsAgree(a: Request, b: Request)
    requires KeyOf(a) == KeyOf(b)
    ensures a.path == b.path && multiset(a.params) == multiset(b.params)
  {
    SortedKeepsItems(a.params, (p: Param) => p.name);
    SortedKeepsItems(b.params, (p: Param) => p.name);
  }

  /** And requests for the same route whose parameters differ only in order share one read. */
  lemma ReorderedReadsShare(a: Request, b: Request)
    requires a.path == b.path && multiset(a.params) == multiset(b.params)
    requires forall i, j :: 0 <= i < j < |a.params| ==> a.params[i].name != a.params[j].name
    requires forall i, j :: 0 <= i < j < |b.params| ==> b.params[i].name != b.params[j].name
    ensures KeyOf(a) == KeyOf(b)
  {
    var key := (p: Param) => p.name;
    SortedKeepsItems(a.params, key);
    SortedKeepsItems(b.params, key);
    hide Sorted;
    SortedIsAscending(a.params, key);
    SortedIsAscending(b.params, key);
    AscendingUnique(Sorted(a.params, key), Sorted(b.params, key), key);
  }

  // ---------------------------------------------------------------- the protocol's state

  datatype Semaphore = Inflight | Market | Chart

  function Capacity(sem: Semaphore): nat {
    match sem
    case Inflight => 4
    case Market => 2
    case Chart => 1
  }

  datatype Outcome = Body | Failed | Busy | Cancelled

  /**
    Where a task stands. Granted: a releaser has handed the slot over but its owner has not resumed.
    Ready: it has its slot, or needs none, and is about to ask for an inflight permit.
  */
  datatype Phase =
    | Start | WaitSlot | Granted | Ready | WaitInflight | Fetching
    | Done(outcome: Outcome)

  datatype Task = Task(key: Key, phase: Phase)

  datatype State = State(
    inflight: nat, market: nat, chart: nat,
    tasks: map<nat, Task>, pending: map<Key, nat>, next: nat)

  const INITIAL := State(4, 2, 1, map[], map[], 0)

  function SlotOf(path: string): Option<Semaphore> {
    if path == CHART then Some(Chart) else if path != HEALTH then Some(Market) else None
  }

  function Free(s: State, sem: Semaphore): nat {
    match sem
    case Inflight => s.inflight
    case Market => s.market
    case Chart => s.chart
  }

  predicate HasSlot(phase: Phase) {
    phase.Granted? || phase.Ready? || phase.WaitInflight? || phase.Fetching?
  }

  predicate Holds(t: Task, sem: Semaphore) {
    match sem
    case Inflight => t.phase.Fetching?
    case _ => SlotOf(t.key.path) == Some(sem) && HasSlot(t.phase)
  }

  /** Queued on the semaphore, or woken from its queue and not yet resumed. */
  predicate Queued(t: Task, sem: Semaphore) {
    match sem
    case Inflight => t.phase.WaitInflight?
    case _ => SlotOf(t.key.path) == Some(sem) && (t.phase.WaitSlot? || t.phase.Granted?)
  }

  /** acquire() returns at once: a permit is free and nobody is queued. */
  predicate Open(s: State, sem: Semaphore) {
    Free(s, sem) > 0 && forall id :: id in s.tasks ==> !Queued(s.tasks[id], sem)
  }

  function Take(s: State, sem: Semaphore): State
    requires Free(s, sem) > 0
  {
    match sem
    case Inflight => s.(inflight := s.inflight - 1)
    case Market => s.(market := s.market - 1)
    case Chart => s.(chart := s.chart - 1)
  }

  function Release(s: State, sem: Semaphore): State {
    match sem
    case Inflight => s.(inflight := s.inflight + 1)
    case Market => s.(market := s.market + 1)
    case Chart => s.(chart := s.chart + 1)
  }

  /** Every way out gives back the slot of a route that has one. */
  function ReleaseSlot(s: State, path: string): State {
    if SlotOf(path).Some? then Release(s, SlotOf(path).value) else s
  }

  function Move(s: State, id: nat, phase: Phase): State
    requires id in s.tasks
  {
    s.(tasks := s.tasks[id := s.tasks[id].(phase := phase)])
  }

  // ---------------------------------------------------------------- steps

  datatype Step =
    | Arrive(request: Request)      // observation: share, refuse or create
    | Begin(id: nat)                // fetch_observation up to its first await
    | GrantSlot(id: nat)            // a free slot permit goes to a queued task
    | Resume(id: nat)               // the woken task runs on
    | SlotTimeout(id: nat)
    | Reserve(id: nat)              // inflight.acquire()
    | GrantInflight(id: nat)
    | InflightTimeout(id: nat)
    | Cancel(id: nat)
    | Finish(id: nat, ok: bool)     // the origin answered or failed
    | Callback(id: nat)             // finished(completed)

  predicate At(s: State, id: nat, phase: Phase) {
    id in s.tasks && s.tasks[id].phase == phase
  }

  function ArriveAt(s: State, request: Request): State {
    var key := KeyOf(request);
    if !Accepted(request) || key in s.pending || |s.pending| >= PENDING_LIMIT then s
    else s.(tasks := s.tasks[s.next := Task(key, Start)], pending := s.pending[key := s.next], next := s.next + 1)
  }

  function BeginAt(s: State, id: nat): State
    requires id in s.tasks
  {
    var slot := SlotOf(s.tasks[id].key.path);
    if slot.None? then Move(s, id, Ready)
    else if Open(s, slot.value) then Move(Take(s, slot.value), id, Ready)
    else Move(s, id, WaitSlot)
  }

  function GrantAt(s: State, id: nat): State
    requires id in s.tasks
  {
    var slot := SlotOf(s.tasks[id].key.path);
    if slot.Some? && Free(s, slot.value) > 0 then Move(Take(s, slot.value), id, Granted) else s
  }

  /** What a task that leaves in this phase gives back, before it ends with the outcome. */
  function LeaveAt(s: State, id: nat, outcome: Outcome): State
    requires id in s.tasks
  {
    var task := s.tasks[id];
    match task.phase
    case Start | WaitSlot => Move(s, id, Done(outcome))
    case Granted | Ready | WaitInflight => Move(ReleaseSlot(s, task.key.path), id, Done(outcome))
    case Fetching => Move(ReleaseSlot(Release(s, Inflight), task.key.path), id, Done(outcome))
    case Done(_) => s
  }

  function CallbackAt(s: State, id: nat): State
    requires id in s.tasks
  {
    var key := s.tasks[id].key;
    var pending := if key in s.pending && s.pending[key] == id then s.pending - {key} else s.pending;
    s.(tasks := s.tasks - {id}, pending := pending)
  }

  /** One step of the relay; a step that is not enabled changes nothing. */
  function Apply(s: State, step: Step): State {
    match step
    case Arrive(request) => ArriveAt(s, request)
    case Begin(id) => if At(s, id, Start) then BeginAt(s, id) else s
    case GrantSlot(id) => if At(s, id, WaitSlot) then GrantAt(s, id) else s
    case Resume(id) => if At(s, id, Granted) then Move(s, id, Ready) else s
    case SlotTimeout(id) => if At(s, id, WaitSlot) || At(s, id, Granted) then LeaveAt(s, id, Busy) else s
    case Reserve(id) =>
      if !At(s, id, Ready) then s
      else if Open(s, Inflight) then Move(Take(s, Inflight), id, Fetching)
      else Move(s, id, WaitInflight)
    case GrantInflight(id) =>
      if At(s, id, WaitInflight) && s.inflight > 0 then Move(Take(s, Inflight), id, Fetching) else s
    case InflightTimeout(id) => if At(s, id, WaitInflight) then LeaveAt(s, id, Busy) else s
    case Cancel(id) => if id in s.tasks then LeaveAt(s, id, Cancelled) else s
    case Finish(id, ok) => if At(s, id, Fetching) then LeaveAt(s, id, if ok then Body else Failed) else s
    case Callback(id) => if id in s.tasks && s.tasks[id].phase.Done? then CallbackAt(s, id) else s
  }

  function Run(steps: seq<Step>): State {
    if steps == [] then INITIAL else Apply(Run(Init(steps)), Last(steps))
  }

  // ---------------------------------------------------------------- permits are conserved

  function Holders(tasks: map<nat, Task>, sem: Semaphore): set<nat> {
    set id | id in tasks && Holds(tasks[id], sem)
  }

  function One(b: bool): nat {
    if b then 1 else 0
  }

  lemma SwapSize<T>(a: set<T>, b: set<T>, x: T)
    requires a - {x} == b - {x}
    ensures |b| == |a| - One(x in a) + One(x in b)
  {
    assert |a - {x}| == |a| - One(x in a);
    assert |b - {x}| == |b| - One(x in b);
  }

  /** Setting one task changes the holders of a semaphore by that task alone. */
  lemma HoldersUpdate(tasks: map<nat, Task>, id: nat, t: Task, sem: Semaphore)
    ensures |Holders(tasks[id := t], sem)| ==
            |Holders(tasks, sem)| - One(id in tasks && Holds(tasks[id], sem)) + One(Holds(t, sem))
  {
    hide Holds;
    var was, now := Holders(tasks, sem), Holders(tasks[id := t], sem);
    assert id in was <==> id in tasks && Holds(tasks[id], sem);
    assert id in now <==> Holds(t, sem);
    assert now - {id} == was - {id};
    hide Holders;
    SwapSize(was, now, id);
  }

  lemma HoldersRemove(tasks: map<nat, Task>, id: nat, sem: Semaphore)
    requires id in tasks && !Holds(tasks[id], sem)
    ensures Holders(tasks - {id}, sem) == Holders(tasks, sem)
  {
  }

  ghost predicate Conserved(s: State, sem: Semaphore) {
    Free(s, sem) + |Holders(s.tasks, sem)| == Capacity(sem)
  }

  /** Moving a task keeps the permits of a semaphore when the free count changed by what it gave or took. */
  lemma MoveConserves(s: State, u: State, id: nat, phase: Phase, sem: Semaphore)
    requires Conserved(s, sem) && id in s.tasks && u.tasks == s.tasks
    requires Free(u, sem) == Free(s, sem) + One(Holds(s.tasks[id], sem)) - One(Holds(s.tasks[id].(phase := phase), sem))
    ensures Conserved(Move(u, id, phase), sem)
  {
    hide Holds, Holders;
    HoldersUpdate(s.tasks, id, s.tasks[id].(phase := phase), sem);
  }

  lemma ReleaseSlotFrees(s: State, path: string, sem: Semaphore)
    ensures var u := ReleaseSlot(s, path);
            u.tasks == s.tasks && Free(u, sem) == Free(s, sem) + One(SlotOf(path) == Some(sem))
  {
  }

  lemma LeaveConserves(s: State, id: nat, outcome: Outcome, sem: Semaphore)
    requires Conserved(s, sem) && id in s.tasks
    ensures Conserved(LeaveAt(s, id, outcome), sem)
  {
    hide Holders, Conserved, ReleaseSlot;
    var path := s.tasks[id].key.path;
    ReleaseSlotFrees(s, path, sem);
    ReleaseSlotFrees(Release(s, Inflight), path, sem);
    match s.tasks[id].phase
    case Start | WaitSlot => MoveConserves(s, s, id, Done(outcome), sem);
    case Granted | Ready | WaitInflight => MoveConserves(s, ReleaseSlot(s, path), id, Done(outcome), sem);
    case Fetching => MoveConserves(s, ReleaseSlot(Release(s, Inflight), path), id, Done(outcome), sem);
    case Done(_) =>
  }

  lemma BeginConserves(s: State, id: nat, sem: Semaphore)
    requires Conserved(s, sem) && At(s, id, Start)
    ensures Conserved(BeginAt(s, id), sem)
  {
    hide Holders, Conserved;
    var slot := SlotOf(s.tasks[id].key.path);
    if slot.None? {
      MoveConserves(s, s, id, Ready, sem);
    } else if Open(s, slot.value) {
      MoveConserves(s, Take(s, slot.value), id, Ready, sem);
    } else {
      MoveConserves(s, s, id, WaitSlot, sem);
    }
  }

  lemma GrantConserves(s: State, id: nat, sem: Semaphore)
    requires Conserved(s, sem) && At(s, id, WaitSlot)
    ensures Conserved(GrantAt(s, id), sem)
  {
    hide Holders, Conserved;
    var slot := SlotOf(s.tasks[id].key.path);
    if slot.Some? && Free(s, slot.value) > 0 {
      MoveConserves(s, Take(s, slot.value), id, Granted, sem);
    }
  }

  /** Every step, whatever it is and whenever it comes, keeps permits plus holders equal to capacity. */
  lemma StepConserves(s: State, step: Step, sem: Semaphore)
    requires Conserved(s, sem)
    requires forall id :: id in s.tasks ==> id < s.next
    ensures Conserved(Apply(s, step), sem)
  {
    hide Holders, LeaveAt, BeginAt, GrantAt;
    match step
    case Arrive(request) =>
      HoldersUpdate(s.tasks, s.next, Task(KeyOf(request), Start), sem);
    case Begin(id) =>
      if At(s, id, Start) { BeginConserves(s, id, sem); }
    case GrantSlot(id) =>
      if At(s, id, WaitSlot) { GrantConserves(s, id, sem); }
    case Resume(id) =>
      if At(s, id, Granted) { MoveConserves(s, s, id, Ready, sem); }
    case Reserve(id) =>
      if At(s, id, Ready) {
        if Open(s, Inflight) {
          MoveConserves(s, Take(s, Inflight), id, Fetching, sem);
        } else {
          MoveConserves(s, s, id, WaitInflight, sem);
        }
      }
    case GrantInflight(id) =>
      if At(s, id, WaitInflight) && s.inflight > 0 {
        MoveConserves(s, Take(s, Inflight), id, Fetching, sem);
      }
    case SlotTimeout(id) =>
      if id in s.tasks { LeaveConserves(s, id, Busy, sem); }
    case InflightTimeout(id) =>
      if id in s.tasks { LeaveConserves(s, id, Busy, sem); }
    case Cancel(id) =>
      if id in s.tasks { LeaveConserves(s, id, Cancelled, sem); }
    case Finish(id, ok) =>
      if id in s.tasks { LeaveConserves(s, id, if ok then Body else Failed, sem); }
    case Callback(id) =>
      if id in s.tasks && s.tasks[id].phase.Done? { HoldersRemove(s.tasks, id, sem); }
  }

  // ---------------------------------------------------------------- one live task per key

  /** The pending map and the live tasks are inverse to each other, and every key came through the boundary. */
  ghost predicate Paired(s: State) {
    && (forall id :: id in s.tasks ==> id < s.next && s.tasks[id].key in s.pending && s.pending[s.tasks[id].key] == id)
    && (forall key :: key in s.pending ==> s.pending[key] in s.tasks && s.tasks[s.pending[key]].key == key)
    && (forall key :: key in s.pending && key.path == HEALTH ==> key == HEALTH_KEY)
    && |s.pending| <= PENDING_LIMIT
  }

  /** Same live tasks reading the same keys, whatever their phases. */
  ghost predicate SameReads(s: State, u: State) {
    && u.pending == s.pending && u.next == s.next && u.tasks.Keys == s.tasks.Keys
    && forall id :: id in s.tasks ==> u.tasks[id].key == s.tasks[id].key
  }

  /** The task is live, reads this key, and no other live task does. */
  ghost predicate OnlyReader(s: State, key: Key, id: nat) {
    id in s.tasks && s.tasks[id].key == key && forall i :: i in s.tasks && s.tasks[i].key == key ==> i == id
  }

  lemma PendingIsOnlyReader(s: State, key: Key)
    requires Paired(s)
    ensures |s.pending| <= PENDING_LIMIT
    ensures key in s.pending ==> OnlyReader(s, key, s.pending[key])
  {
  }

  lemma SameReadsPaired(s: State, u: State)
    requires Paired(s) && SameReads(s, u)
    ensures Paired(u)
  {
  }

  lemma MoveKeepsReads(s: State, u: State, id: nat, phase: Phase)
    requires id in s.tasks && u.tasks == s.tasks && u.pending == s.pending && u.next == s.next
    ensures SameReads(s, Move(u, id, phase))
  {
  }

  lemma BeginKeepsReads(s: State, id: nat)
    requires id in s.tasks
    ensures SameReads(s, BeginAt(s, id))
  {
    hide Open;
  }

  lemma GrantKeepsReads(s: State, id: nat)
    requires id in s.tasks
    ensures SameReads(s, GrantAt(s, id))
  {
  }

  lemma LeaveKeepsReads(s: State, id: nat, outcome: Outcome)
    requires id in s.tasks
    ensures SameReads(s, LeaveAt(s, id, outcome))
  {
  }

  lemma StepKeepsReads(s: State, step: Step)
    ensures !step.Arrive? && !step.Callback? ==> SameReads(s, Apply(s, step))
  {
    hide SlotOf, LeaveAt, BeginAt, GrantAt, Move;
    match step
    case Begin(id) => if At(s, id, Start) { BeginKeepsReads(s, id); }
    case GrantSlot(id) => if At(s, id, WaitSlot) { GrantKeepsReads(s, id); }
    case SlotTimeout(id) => if id in s.tasks { LeaveKeepsReads(s, id, Busy); }
    case InflightTimeout(id) => if id in s.tasks { LeaveKeepsReads(s, id, Busy); }
    case Cancel(id) => if id in s.tasks { LeaveKeepsReads(s, id, Cancelled); }
    case Finish(id, ok) => if id in s.tasks { LeaveKeepsReads(s, id, if ok then Body else Failed); }
    case Resume(id) => if At(s, id, Granted) { MoveKeepsReads(s, s, id, Ready); }
    case Reserve(id) =>
      if At(s, id, Ready) {
        MoveKeepsReads(s, s, id, WaitInflight);
        if Open(s, Inflight) { MoveKeepsReads(s, Take(s, Inflight), id, Fetching); }
      }
    case GrantInflight(id) =>
      if At(s, id, WaitInflight) && s.inflight > 0 { MoveKeepsReads(s, Take(s, Inflight), id, Fetching); }
    case _ =>
  }

  lemma ArrivePairs(s: State, request: Request)
    requires Paired(s)
    ensures Paired(ArriveAt(s, request))
  {
    hide Accepted, KeyOf;
    if Accepted(request) {
      OneHealthKey(request);
    }
  }

  lemma CallbackPairs(s: State, id: nat)
    requires Paired(s) && id in s.tasks
    ensures Paired(CallbackAt(s, id))
  {
    var key := s.tasks[id].key;
    assert |s.pending - {key}| <= |s.pending| by {
      assert (s.pending - {key}).Keys <= s.pending.Keys;
      SubsetSize((s.pending - {key}).Keys, s.pending.Keys);
    }
  }

  lemma {:induction false} SubsetSize<T>(a: set<T>, b: set<T>)
    requires a <= b
    ensures |a| <= |b|
    decreases b
  {
    if a != {} {
      var x :| x in a;
      SubsetSize(a - {x}, b - {x});
    }
  }

  lemma StepPairs(s: State, step: Step)
    requires Paired(s)
    ensures Paired(Apply(s, step))
  {
    hide Paired, SameReads, ArriveAt, CallbackAt;
    match step
    case Arrive(request) => ArrivePairs(s, request);
    case Callback(id) => if id in s.tasks { CallbackPairs(s, id); }
    case _ =>
      StepKeepsReads(s, step);
      SameReadsPaired(s, Apply(s, step));
  }

  // ---------------------------------------------------------------- health never queues

  /** No task waits for an inflight permit, and a health task neither waits nor ends busy. */
  predicate Flowing(t: Task) {
    && !t.phase.WaitInflight?
    && (t.key.path == HEALTH ==> !t.phase.WaitSlot? && !t.phase.Granted? && t.phase != Done(Busy))
  }

  ghost predicate AllFlowing(s: State) {
    forall id :: id in s.tasks ==> Flowing(s.tasks[id])
  }

  function HealthTasks(tasks: map<nat, Task>): set<nat> {
    set id | id in tasks && tasks[id].key.path == HEALTH
  }

  lemma AtMostOneHealth(s: State)
    requires Paired(s)
    ensures |HealthTasks(s.tasks)| <= 1
  {
    if HealthTasks(s.tasks) != {} {
      var only := s.pending[HEALTH_KEY];
      assert HealthTasks(s.tasks) <= {only};
      SubsetSize(HealthTasks(s.tasks), {only});
    }
  }

  ghost predicate Sound(s: State) {
    && (forall sem :: Conserved(s, sem))
    && Paired(s)
    && AllFlowing(s)
  }

  lemma UnionSize<T>(a: set<T>, b: set<T>)
    ensures |a + b| <= |a| + |b|
  {
    assert |a + b| == |a| + |b| - |a * b|;
  }

  /** A task past its slot holds a chart slot or a market slot, or reads the one health key. */
  lemma PastSlot(s: State, id: nat)
    requires AllFlowing(s) && id in s.tasks && (s.tasks[id].phase.Ready? || s.tasks[id].phase.Fetching?)
    ensures id in Holders(s.tasks, Chart) + Holders(s.tasks, Market) + HealthTasks(s.tasks)
  {
  }

  /** So at most four tasks are past their slot. */
  lemma DemandAtMostFour(s: State)
    requires Sound(s)
    ensures |Holders(s.tasks, Chart) + Holders(s.tasks, Market) + HealthTasks(s.tasks)| <= 4
  {
    assert Conserved(s, Chart) && Conserved(s, Market);
    AtMostOneHealth(s);
    hide Paired, AllFlowing, Holders, HealthTasks;
    UnionSize(Holders(s.tasks, Chart), Holders(s.tasks, Market));
    UnionSize(Holders(s.tasks, Chart) + Holders(s.tasks, Market), HealthTasks(s.tasks));
  }

  /** A task that asks for an inflight permit finds one free and nobody queued. */
  lemma InflightNeverContended(s: State, id: nat)
    requires Sound(s) && At(s, id, Ready)
    ensures Open(s, Inflight)
  {
    forall i | i in s.tasks ensures !Queued(s.tasks[i], Inflight) {
      assert Flowing(s.tasks[i]);
    }
    assert Conserved(s, Inflight);
    DemandAtMostFour(s);
    var holders := Holders(s.tasks, Inflight);
    var past := Holders(s.tasks, Chart) + Holders(s.tasks, Market) + HealthTasks(s.tasks);
    forall i | i in holders + {id} ensures i in past {
      PastSlot(s, i);
    }
    assert id !in holders;
    hide Sound, Paired, Holders, HealthTasks, AllFlowing;
    SubsetSize(holders + {id}, past);
  }

  lemma StepFlows(s: State, step: Step)
    requires Sound(s)
    ensures AllFlowing(Apply(s, step))
  {
    hide Sorted, Conserved, Open, Paired, Accepted, KeyOf;
    match step
    case Reserve(id) => if At(s, id, Ready) { InflightNeverContended(s, id); }
    case _ =>
  }

  lemma StepSound(s: State, step: Step)
    requires Sound(s)
    ensures Sound(Apply(s, step))
  {
    StepPairs(s, step);
    StepFlows(s, step);
    forall sem ensures Conserved(Apply(s, step), sem) {
      StepConserves(s, step, sem);
    }
  }

  /**
    Over every interleaving of every step: permits plus holders equal capacity for each semaphore,
    at most one live task exists per key, no more than 32 reads are pending, no task ever waits for
    an inflight permit, and no health task waits or ends busy.
  */
  lemma {:induction false} EveryRunIsSound(steps: seq<Step>)
    ensures Sound(Run(steps))
  {
    if steps != [] {
      EveryRunIsSound(Init(steps));
      StepSound(Run(Init(steps)), Last(steps));
    } else {
      forall sem ensures Conserved(INITIAL, sem) {
        assert Holders(INITIAL.tasks, sem) == {};
      }
    }
  }

  /** Which outcomes a task can end with from where it stands. */
  predicate MayLeave(phase: Phase, outcome: Outcome) {
    match outcome
    case Body | Failed => phase.Fetching?
    case Busy => phase.WaitSlot? || phase.Granted? || phase.WaitInflight?
    case Cancelled => true
  }

  function StepOf(phase: Phase, id: nat, outcome: Outcome): Step {
    match outcome
    case Body => Finish(id, true)
    case Failed => Finish(id, false)
    case Busy => if phase.WaitInflight? then InflightTimeout(id) else SlotTimeout(id)
    case Cancelled => Cancel(id)
  }

  lemma LeaveIsStep(s: State, id: nat, outcome: Outcome)
    requires id in s.tasks && MayLeave(s.tasks[id].phase, outcome)
    ensures Apply(s, StepOf(s.tasks[id].phase, id, outcome)) == LeaveAt(s, id, outcome)
  {
    hide LeaveAt, BeginAt, GrantAt, ArriveAt, CallbackAt, Open;
  }

  lemma LeaveSound(s: State, id: nat, outcome: Outcome)
    requires Sound(s) && id in s.tasks && MayLeave(s.tasks[id].phase, outcome)
    ensures Sound(LeaveAt(s, id, outcome))
  {
    hide *;
    LeaveIsStep(s, id, outcome);
    StepSound(s, StepOf(s.tasks[id].phase, id, outcome));
  }

  /** What an accepted request does to a sound state, spelled out. */
  lemma ArriveSound(s: State, request: Request)
    requires Sound(s) && Accepted(request)
    ensures var key := KeyOf(request);
            var u := Apply(s, Arrive(request));
            && Sound(u) && |s.pending| <= PENDING_LIMIT && s.next !in s.tasks
            && (key in u.pending ==> OnlyReader(u, key, u.pending[key]))
            && u == if key in s.pending || |s.pending| >= PENDING_LIMIT then s
                    else State(s.inflight, s.market, s.chart, s.tasks[s.next := Task(key, Start)],
                               s.pending[key := s.next], s.next + 1)
  {
    assert s.next !in s.tasks;
    hide Accepted, KeyOf, Sound, Paired, Conserved, AllFlowing;
    StepSound(s, Arrive(request));
    PairedParts(s);
    PairedParts(Apply(s, Arrive(request)));
    PendingIsOnlyReader(s, KeyOf(request));
    PendingIsOnlyReader(Apply(s, Arrive(request)), KeyOf(request));
  }

  lemma PairedParts(s: State)
    requires Sound(s)
    ensures Paired(s)
  {
    hide Paired, Conserved, AllFlowing;
  }
}
