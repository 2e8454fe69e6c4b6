/**
  What every step of the relay does to every task, and what it means that a read ended the way it did.
  The steps are described by what a task waits for and what it then becomes, not by what is taken or given
  back; with the conservation of permits and the pairing of keys this determines the next state.
*/
module RelayOutcomes {
  import opened Prelude
  import opened Relay

  /** The chart slot serves the chart route, the market slots every other route but health. */
  predicate UsesChart(t: Task) {
    t.key.path == CHART
  }

  predicate UsesMarket(t: Task) {
    t.key.path != CHART && t.key.path != HEALTH
  }

  /** In the queue of its slot, or handed the slot and not yet running. */
  predicate InLine(t: Task) {
    t.phase == WaitSlot || t.phase == Granted
  }

  /** The slot of this task can be had at once: a permit is free and no task of the same slot is in line. */
  ghost predicate SlotOpen(s: State, t: Task) {
    && (UsesChart(t) ==> s.chart > 0 && forall i :: i in s.tasks && UsesChart(s.tasks[i]) ==> !InLine(s.tasks[i]))
    && (UsesMarket(t) ==> s.market > 0 && forall i :: i in s.tasks && UsesMarket(s.tasks[i]) ==> !InLine(s.tasks[i]))
  }

  predicate PermitFree(s: State, t: Task) {
    (UsesChart(t) ==> s.chart > 0) && (UsesMarket(t) ==> s.market > 0)
  }

  ghost predicate InflightOpen(s: State) {
    s.inflight > 0 && forall i :: i in s.tasks ==> s.tasks[i].phase != WaitInflight
  }

  /** How this step ends a read of the task, if it does. */
  predicate Ends(s: State, step: Step, id: nat, outcome: Outcome) {
    && id in s.tasks
    && var phase := s.tasks[id].phase;
       match outcome
       case Body => step == Finish(id, true) && phase == Fetching
       case Failed => step == Finish(id, false) && phase == Fetching
       case Busy => (step == SlotTimeout(id) && (phase == WaitSlot || phase == Granted)) || (step == InflightTimeout(id) && phase == WaitInflight)
       case Cancelled => step == Cancel(id) && !phase.Done?
  }

  /** What the step makes of the task. */
  ghost predicate Becomes(s: State, step: Step, id: nat, after: Phase)
    requires id in s.tasks
  {
    var t := s.tasks[id];
    if exists o :: Ends(s, step, id, o) then exists o :: Ends(s, step, id, o) && after == Done(o)
    else if step == Begin(id) && t.phase == Start then after == if SlotOpen(s, t) then Ready else WaitSlot
    else if step == GrantSlot(id) && t.phase == WaitSlot && t.key.path != HEALTH && PermitFree(s, t) then after == Granted
    else if step == Resume(id) && t.phase == Granted then after == Ready
    else if step == Reserve(id) && t.phase == Ready then after == if InflightOpen(s) then Fetching else WaitInflight
    else if step == GrantInflight(id) && t.phase == WaitInflight && s.inflight > 0 then after == Fetching
    else after == t.phase
  }

  /** The step creates this task: a new read for an accepted request whose key nobody reads, while fewer than 32 are pending. */
  ghost predicate Creates(s: State, step: Step, id: nat) {
    && step.Arrive? && Accepted(step.request) && KeyOf(step.request) !in s.pending && |s.pending| < 32 && id == s.next
  }

  /** The step removes this task: its callback runs after it ended. */
  predicate Removes(s: State, step: Step, id: nat) {
    step == Callback(id) && id in s.tasks && s.tasks[id].phase.Done?
  }

  lemma SlotOpenIff(s: State, t: Task)
    ensures SlotOpen(s, t) <==> SlotOf(t.key.path).None? || Open(s, SlotOf(t.key.path).value)
  {
    forall i | i in s.tasks
      ensures Queued(s.tasks[i], Chart) <==> UsesChart(s.tasks[i]) && InLine(s.tasks[i])
      ensures Queued(s.tasks[i], Market) <==> UsesMarket(s.tasks[i]) && InLine(s.tasks[i])
    {
    }
    hide Queued;
  }

  lemma HealthNeedsNoSlot(s: State, t: Task)
    ensures t.key.path == HEALTH ==> SlotOpen(s, t)
  {
    assert CHART != HEALTH;
  }

  lemma PendingNames(s: State, id: nat)
    requires Sound(s) && id in s.tasks
    ensures s.tasks[id].key in s.pending && s.pending[s.tasks[id].key] == id
  {
    hide Conserved, AllFlowing;
  }

  lemma InflightOpenIff(s: State)
    ensures InflightOpen(s) <==> Open(s, Inflight)
  {
  }

  lemma LeavePhase(s: State, id: nat, outcome: Outcome)
    requires id in s.tasks
    ensures var u := LeaveAt(s, id, outcome);
            && u.tasks == s.tasks[id := s.tasks[id].(phase := if s.tasks[id].phase.Done? then s.tasks[id].phase else Done(outcome))]
            && u.pending == s.pending && u.next == s.next
  {
  }

  lemma BeginPhase(s: State, id: nat)
    requires id in s.tasks
    ensures BeginAt(s, id).tasks == s.tasks[id := s.tasks[id].(phase := if SlotOpen(s, s.tasks[id]) then Ready else WaitSlot)]
    ensures BeginAt(s, id).next == s.next
  {
    SlotOpenIff(s, s.tasks[id]);
    hide SlotOpen, Open;
  }

  lemma GrantPhase(s: State, id: nat)
    requires id in s.tasks
    ensures GrantAt(s, id).tasks ==
            s.tasks[id := s.tasks[id].(phase := if s.tasks[id].key.path != HEALTH && PermitFree(s, s.tasks[id]) then Granted else s.tasks[id].phase)]
    ensures GrantAt(s, id).next == s.next
  {
    assert s.tasks[id := s.tasks[id]] == s.tasks;
  }

  /** Nothing ends on a step that is not one of the five endings. */
  lemma NoEnding(s: State, step: Step, id: nat)
    requires !step.Finish? && !step.SlotTimeout? && !step.InflightTimeout? && !step.Cancel?
    ensures forall o :: !Ends(s, step, id, o)
  {
  }

  /** The step touches this task alone, and makes of it what it must. */
  ghost predicate Touches(s: State, step: Step, id: nat, u: State) {
    && u.next == s.next && id in s.tasks && u.tasks.Keys == s.tasks.Keys && u.tasks[id].key == s.tasks[id].key
    && (forall other :: other in s.tasks && other != id ==> u.tasks[other] == s.tasks[other])
    && Becomes(s, step, id, u.tasks[id].phase)
  }

  lemma RunningStep(s: State, step: Step, id: nat)
    requires step.Begin? || step.GrantSlot? || step.Resume? || step.Reserve? || step.GrantInflight?
    requires id == step.id && id in s.tasks
    ensures Touches(s, step, id, Apply(s, step))
  {
    hide SlotOpen, Open, InflightOpen, BeginAt, GrantAt, PermitFree, SlotOf, Ends;
    InflightOpenIff(s);
    NoEnding(s, step, id);
    match step
    case Begin(_) => BeginPhase(s, id);
    case GrantSlot(_) => GrantPhase(s, id);
    case _ =>
  }

  lemma EndingStep(s: State, step: Step, id: nat)
    requires step.SlotTimeout? || step.InflightTimeout? || step.Cancel? || step.Finish?
    requires id == step.id && id in s.tasks
    ensures Touches(s, step, id, Apply(s, step))
  {
    hide SlotOpen, InflightOpen, LeaveAt, PermitFree;
    var outcome := match step case Cancel(_) => Cancelled case Finish(_, ok) => (if ok then Body else Failed) case _ => Busy;
    LeavePhase(s, id, outcome);
    assert forall o :: Ends(s, step, id, o) ==> o == outcome;
    hide Ends;
    EndingApplies(s, step, id, outcome);
  }

  /** An ending step applies exactly where it ends the read. */
  lemma EndingApplies(s: State, step: Step, id: nat, outcome: Outcome)
    requires step.SlotTimeout? || step.InflightTimeout? || step.Cancel? || step.Finish?
    requires id == step.id && id in s.tasks
    requires outcome == match step case Cancel(_) => Cancelled case Finish(_, ok) => (if ok then Body else Failed) case _ => Busy
    ensures Apply(s, step).tasks ==
            if Ends(s, step, id, outcome) then LeaveAt(s, id, outcome).tasks else s.tasks
    ensures Apply(s, step).next == s.next
    ensures Ends(s, step, id, outcome) ==> !s.tasks[id].phase.Done?
  {
    LeavePhase(s, id, outcome);
    hide LeaveAt;
    if s.tasks[id].phase.Done? {
      assert s.tasks[id := s.tasks[id]] == s.tasks;
    }
  }

  /** What a step makes of the tasks: this one is new, those are gone, and of every other the step makes what it must. */
  ghost predicate Advances(s: State, step: Step, u: State) {
    && (forall id :: id in u.tasks && id !in s.tasks ==> Creates(s, step, id) && u.tasks[id] == Task(KeyOf(step.request), Start))
    && (forall id :: Creates(s, step, id) ==> id in u.tasks && id !in s.tasks)
    && (forall id :: id in s.tasks ==> (id !in u.tasks <==> Removes(s, step, id)))
    && (forall id :: id in s.tasks && id in u.tasks ==> u.tasks[id].key == s.tasks[id].key && Becomes(s, step, id, u.tasks[id].phase))
    && s.next <= u.next && (forall id :: id in u.tasks ==> id < u.next)
  }

  lemma OthersUntouched(s: State, step: Step, id: nat)
    requires id in s.tasks && (step.Arrive? || step.Callback? || step.id != id)
    ensures Becomes(s, step, id, s.tasks[id].phase)
  {
    hide SlotOpen, InflightOpen, PermitFree;
    assert forall o :: !Ends(s, step, id, o);
  }

  lemma ArriveAdvances(s: State, request: Request)
    requires Paired(s)
    ensures Advances(s, Arrive(request), Apply(s, Arrive(request)))
  {
    hide Accepted, KeyOf, Becomes;
    forall id | id in s.tasks ensures Becomes(s, Arrive(request), id, s.tasks[id].phase) {
      OthersUntouched(s, Arrive(request), id);
    }
  }

  lemma CallbackAdvances(s: State, id: nat)
    requires Paired(s)
    ensures Advances(s, Callback(id), Apply(s, Callback(id)))
  {
    hide Becomes, KeyOf, Accepted;
    forall other | other in s.tasks ensures Becomes(s, Callback(id), other, s.tasks[other].phase) {
      OthersUntouched(s, Callback(id), other);
    }
  }

  lemma TouchAdvances(s: State, step: Step)
    requires Paired(s) && !step.Arrive? && !step.Callback? && step.id in s.tasks && Touches(s, step, step.id, Apply(s, step))
    ensures Advances(s, step, Apply(s, step))
  {
    hide Becomes, Apply, KeyOf, Accepted;
    forall other | other in s.tasks && other != step.id ensures Becomes(s, step, other, s.tasks[other].phase) {
      OthersUntouched(s, step, other);
    }
  }

  lemma IdleAdvances(s: State, step: Step)
    requires Paired(s) && !step.Arrive? && !step.Callback? && step.id !in s.tasks
    ensures Apply(s, step) == s && Advances(s, step, s)
  {
    hide Becomes, KeyOf, Accepted, LeaveAt, BeginAt, GrantAt;
    forall other | other in s.tasks ensures Becomes(s, step, other, s.tasks[other].phase) {
      OthersUntouched(s, step, other);
    }
  }

  /** Every step of the relay, from every paired state. */
  lemma EveryStepAdvances(s: State, step: Step)
    requires Paired(s)
    ensures Advances(s, step, Apply(s, step))
  {
    hide Advances, Apply, Paired, Touches;
    match step
    case Arrive(request) => ArriveAdvances(s, request);
    case Callback(id) => CallbackAdvances(s, id);
    case SlotTimeout(id) => if id in s.tasks { EndingStep(s, step, id); TouchAdvances(s, step); } else { IdleAdvances(s, step); }
    case InflightTimeout(id) => if id in s.tasks { EndingStep(s, step, id); TouchAdvances(s, step); } else { IdleAdvances(s, step); }
    case Cancel(id) => if id in s.tasks { EndingStep(s, step, id); TouchAdvances(s, step); } else { IdleAdvances(s, step); }
    case Finish(id, _) => if id in s.tasks { EndingStep(s, step, id); TouchAdvances(s, step); } else { IdleAdvances(s, step); }
    case Begin(id) => if id in s.tasks { RunningStep(s, step, id); TouchAdvances(s, step); } else { IdleAdvances(s, step); }
    case GrantSlot(id) => if id in s.tasks { RunningStep(s, step, id); TouchAdvances(s, step); } else { IdleAdvances(s, step); }
    case Resume(id) => if id in s.tasks { RunningStep(s, step, id); TouchAdvances(s, step); } else { IdleAdvances(s, step); }
    case Reserve(id) => if id in s.tasks { RunningStep(s, step, id); TouchAdvances(s, step); } else { IdleAdvances(s, step); }
    case GrantInflight(id) => if id in s.tasks { RunningStep(s, step, id); TouchAdvances(s, step); } else { IdleAdvances(s, step); }
  }

  // ---------------------------------------------------------------- outcomes over runs

  /** Somewhere along the run a step ended this read with this outcome. */
  ghost predicate EndedWith(steps: seq<Step>, id: nat, outcome: Outcome) {
    exists i :: 0 <= i < |steps| && Ends(Run(steps[..i]), steps[i], id, outcome)
  }

  /** One step: a read stands ended exactly when it did before, or the step ended it so. */
  lemma EndedByStep(s: State, step: Step, id: nat, outcome: Outcome)
    requires Paired(s) && id in Apply(s, step).tasks
    ensures Apply(s, step).tasks[id].phase == Done(outcome) <==>
            Ends(s, step, id, outcome) || (id in s.tasks && s.tasks[id].phase == Done(outcome))
  {
    hide Apply, Accepted, KeyOf, Paired, Becomes, Ends;
    EveryStepAdvances(s, step);
    if id in s.tasks {
      BecomesDone(s, step, id, Apply(s, step).tasks[id].phase, outcome);
    } else {
      OneEnding(s, step, id);
    }
  }

  lemma BecomesDone(s: State, step: Step, id: nat, after: Phase, outcome: Outcome)
    requires id in s.tasks && Becomes(s, step, id, after)
    ensures after == Done(outcome) <==> Ends(s, step, id, outcome) || s.tasks[id].phase == Done(outcome)
  {
    hide SlotOpen, InflightOpen, PermitFree, Ends;
    OneEnding(s, step, id);
  }

  lemma OneEnding(s: State, step: Step, id: nat)
    ensures forall o, p :: Ends(s, step, id, o) && Ends(s, step, id, p) ==> o == p
    ensures forall o :: Ends(s, step, id, o) ==> id in s.tasks && !s.tasks[id].phase.Done?
  {
  }

  lemma RunPaired(steps: seq<Step>)
    ensures Paired(Run(steps))
  {
    hide Run, Conserved, Paired, AllFlowing;
    EveryRunIsSound(steps);
  }

  /** Identities are used once: a task that was there before a prefix ended is older than every task created after it. */
  lemma {:induction false} OlderTasks(steps: seq<Step>, i: nat, id: nat)
    requires i <= |steps| && id in Run(steps[..i]).tasks
    ensures id < Run(steps).next
    decreases |steps|
  {
    hide Apply, Paired, Advances, Run;
    RunPaired(steps);
    if i == |steps| {
      assert steps[..i] == steps;
      AllOlder(steps);
    } else {
      assert Init(steps)[..i] == steps[..i];
      OlderTasks(Init(steps), i, id);
      RunPaired(Init(steps));
      NextGrows(Init(steps), Last(steps));
      assert steps == Init(steps) + [Last(steps)];
    }
  }

  lemma AllOlder(steps: seq<Step>)
    ensures forall id :: id in Run(steps).tasks ==> id < Run(steps).next
  {
    RunPaired(steps);
    hide Run;
  }

  lemma NextGrows(steps: seq<Step>, step: Step)
    ensures Run(steps).next <= Run(steps + [step]).next && Run(steps + [step]) == Apply(Run(steps), step)
  {
    RunPaired(steps);
    assert Init(steps + [step]) == steps;
    EveryStepAdvances(Run(steps), step);
    hide Apply, Paired, Becomes, Creates;
  }

  /** A read that ended on the way, and is still there, stays ended so. */
  lemma {:induction false} OutcomeIff(steps: seq<Step>, id: nat, outcome: Outcome)
    requires id in Run(steps).tasks
    ensures Run(steps).tasks[id].phase == Done(outcome) <==> EndedWith(steps, id, outcome)
  {
    hide Run, Apply, Ends, EndedWith, Paired;
    if steps == [] {
      NothingYet(id, outcome);
    } else {
      var earlier, step := Init(steps), Last(steps);
      var s := Run(earlier);
      assert steps == earlier + [step];
      NextGrows(earlier, step);
      RunPaired(earlier);
      EndedByStep(s, step, id, outcome);
      EndedSplits(earlier, step, id, outcome);
      if id in s.tasks {
        OutcomeIff(earlier, id, outcome);
      } else if EndedWith(earlier, id, outcome) {
        EndedIsOlder(earlier, id, outcome);
        NewIsNext(s, step, id);
        assert false;
      }
    }
  }

  lemma NothingYet(id: nat, outcome: Outcome)
    ensures Run([]) == INITIAL && !EndedWith([], id, outcome)
  {
  }

  lemma EndedIsOlder(steps: seq<Step>, id: nat, outcome: Outcome)
    requires EndedWith(steps, id, outcome)
    ensures id < Run(steps).next
  {
    hide Run, Ends;
    var i :| 0 <= i < |steps| && Ends(Run(steps[..i]), steps[i], id, outcome);
    OneEnding(Run(steps[..i]), steps[i], id);
    OlderTasks(steps, i, id);
  }

  lemma NewIsNext(s: State, step: Step, id: nat)
    requires Paired(s) && id in Apply(s, step).tasks && id !in s.tasks
    ensures id == s.next
  {
    EveryStepAdvances(s, step);
    hide Apply, Paired, Becomes, Accepted, KeyOf;
  }

  lemma EndedSplits(earlier: seq<Step>, step: Step, id: nat, outcome: Outcome)
    ensures EndedWith(earlier + [step], id, outcome) <==> EndedWith(earlier, id, outcome) || Ends(Run(earlier), step, id, outcome)
  {
    hide Run, Ends;
    var all := earlier + [step];
    assert all[..|earlier|] == earlier && all[|earlier|] == step;
    forall i | 0 <= i < |earlier| ensures all[..i] == earlier[..i] && all[i] == earlier[i] {
    }
    if EndedWith(earlier, id, outcome) {
      var i :| 0 <= i < |earlier| && Ends(Run(earlier[..i]), earlier[i], id, outcome);
      assert Ends(Run(all[..i]), all[i], id, outcome);
    }
  }
}
