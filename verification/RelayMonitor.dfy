/** The relay's semaphores, tasks and pending map, changed in place by the handlers and the tasks. */
module RelayMonitor {
  import opened Prelude
  import opened Relay
  import opened RelayOutcomes

  datatype Reply = Shared(task: nat) | Created(task: nat) | Refused

  /** The objects create_app closes over, changed in place by the handlers; each method is one step. */
  class Monitor {
    var inflight: nat
    var market: nat
    var chart: nat
    var tasks: map<nat, Task>
    var pending: map<Key, nat>
    var next: nat

    ghost function Now(): State
      reads this
    {
      State(inflight, market, chart, tasks, pending, next)
    }

    constructor ()
      ensures Now() == INITIAL && Sound(Now())
      ensures inflight == 4 && market == 2 && chart == 1 && tasks == map[] && pending == map[]
    {
      inflight, market, chart := 4, 2, 1;
      tasks, pending, next := map[], map[], 0;
      new;
      EveryRunIsSound([]);
    }

    /**
      The observation handler up to its await. A reply names the one live task that reads exactly
      this key; a refusal means 32 other reads are pending.
    */
    method Observe(request: Request) returns (reply: Reply)
      requires Sound(Now()) && Accepted(request)
      modifies this
      ensures Sound(Now()) && Now() == Apply(old(Now()), Arrive(request))
      ensures reply.Refused? <==> KeyOf(request) !in old(pending) && |old(pending)| == 32
      ensures !reply.Refused? ==> OnlyReader(Now(), KeyOf(request), reply.task)
      ensures reply.Created? <==> tasks != old(tasks)
      ensures reply.Created? ==> tasks == old(tasks)[reply.task := Task(KeyOf(request), Start)]
    {
      hide Apply, Sound, Accepted, KeyOf, OnlyReader;
      var key := KeyOf(request);
      ArriveSound(Now(), request);
      if key in pending {
        return Shared(pending[key]);
      }
      if |pending| >= PENDING_LIMIT {
        return Refused;
      }
      tasks := tasks[next := Task(key, Start)];
      pending := pending[key := next];
      next := next + 1;
      return Created(next - 1);
    }

    /** slot.acquire() or inflight.acquire() when it can return at once; false means the caller queues. */
    method Acquire(sem: Semaphore) returns (got: bool)
      modifies this
      ensures got <==> Open(old(Now()), sem)
      ensures Now() == if got then Take(old(Now()), sem) else old(Now())
    {
      got := Free(State(inflight, market, chart, tasks, pending, next), sem) > 0
        && forall id :: id in tasks ==> !Queued(tasks[id], sem);
      if got {
        match sem
        case Inflight => inflight := inflight - 1;
        case Market => market := market - 1;
        case Chart => chart := chart - 1;
      }
    }

    method ReleaseTo(sem: Semaphore)
      modifies this
      ensures Now() == Release(old(Now()), sem)
    {
      match sem
      case Inflight => inflight := inflight + 1;
      case Market => market := market + 1;
      case Chart => chart := chart + 1;
    }

    /** A task's first stretch: take the slot it needs, if it needs one, or queue for it. */
    method Launch(id: nat)
      requires Sound(Now()) && At(Now(), id, Start)
      modifies this
      ensures Sound(Now()) && Now() == Apply(old(Now()), Begin(id))
      ensures Touches(old(Now()), Begin(id), id, Now())
      ensures tasks[id].phase == if SlotOpen(old(Now()), old(tasks[id])) then Ready else WaitSlot
      ensures tasks[id].key.path == HEALTH ==> tasks[id].phase.Ready?
    {
      hide Sound, Open, Touches, SlotOpen, ArriveAt, GrantAt, LeaveAt, CallbackAt;
      StepSound(Now(), Begin(id));
      RunningStep(Now(), Begin(id), id);
      BeginPhase(Now(), id);
      HealthNeedsNoSlot(Now(), tasks[id]);
      var slot := SlotOf(tasks[id].key.path);
      var got := true;
      if slot.Some? {
        got := Acquire(slot.value);
      }
      tasks := tasks[id := tasks[id].(phase := if got then Ready else WaitSlot)];
    }

    /** inflight.acquire(): it returns at once in every reachable state. */
    method Enter(id: nat)
      requires Sound(Now()) && At(Now(), id, Ready)
      modifies this
      ensures Sound(Now()) && Now() == Apply(old(Now()), Reserve(id))
      ensures Touches(old(Now()), Reserve(id), id, Now())
      ensures At(Now(), id, Fetching) && inflight == old(inflight) - 1
    {
      hide Sound, Open, Touches, ArriveAt, GrantAt, BeginAt, LeaveAt, CallbackAt;
      InflightNeverContended(Now(), id);
      StepSound(Now(), Reserve(id));
      RunningStep(Now(), Reserve(id), id);
      var got := Acquire(Inflight);
      tasks := tasks[id := tasks[id].(phase := Fetching)];
    }

    /** A free slot permit is handed to a queued task. */
    method Wake(id: nat)
      requires Sound(Now()) && At(Now(), id, WaitSlot)
      modifies this
      ensures Sound(Now()) && Now() == Apply(old(Now()), GrantSlot(id))
      ensures Touches(old(Now()), GrantSlot(id), id, Now())
    {
      hide Sound, ArriveAt, BeginAt, LeaveAt, CallbackAt, Open, Touches;
      StepSound(Now(), GrantSlot(id));
      RunningStep(Now(), GrantSlot(id), id);
      var slot := SlotOf(tasks[id].key.path);
      if slot == Some(Chart) && chart > 0 {
        chart := chart - 1;
        tasks := tasks[id := tasks[id].(phase := Granted)];
      } else if slot == Some(Market) && market > 0 {
        market := market - 1;
        tasks := tasks[id := tasks[id].(phase := Granted)];
      }
    }

    /** The woken task runs on to its request for an inflight permit. */
    method Resumed(id: nat)
      requires Sound(Now()) && At(Now(), id, Granted)
      modifies this
      ensures Sound(Now()) && Now() == Apply(old(Now()), Resume(id))
      ensures Touches(old(Now()), Resume(id), id, Now())
    {
      hide Sound, ArriveAt, BeginAt, GrantAt, LeaveAt, CallbackAt, Open, Touches;
      StepSound(Now(), Resume(id));
      RunningStep(Now(), Resume(id), id);
      tasks := tasks[id := tasks[id].(phase := Ready)];
    }

    /**
      Leaving by an answer, an error, a timeout or a cancellation: the task ends with this outcome, unless
      it had ended, everything it took is returned, and no other task changes.
    */
    method Leave(id: nat, outcome: Outcome)
      requires Sound(Now()) && id in tasks && MayLeave(tasks[id].phase, outcome)
      modifies this
      ensures Sound(Now()) && Now() == LeaveAt(old(Now()), id, outcome)
      ensures forall sem :: !Holds(tasks[id], sem)
      ensures tasks == old(tasks)[id := Task(old(tasks[id]).key, if old(tasks[id]).phase.Done? then old(tasks[id]).phase else Done(outcome))]
      ensures pending == old(pending)
    {
      hide Sound, MayLeave;
      LeaveSound(Now(), id, outcome);
      LeavePhase(Now(), id, outcome);
      var task := tasks[id];
      if task.phase.Done? {
        return;
      }
      if task.phase.Fetching? {
        ReleaseTo(Inflight);
      }
      var slot := SlotOf(task.key.path);
      if slot.Some? && HasSlot(task.phase) {
        ReleaseTo(slot.value);
      }
      tasks := tasks[id := task.(phase := Done(outcome))];
    }

    /** The done-callback: the key becomes free for a new read. */
    method Finished(id: nat)
      requires Sound(Now()) && id in tasks && tasks[id].phase.Done?
      modifies this
      ensures Sound(Now()) && Now() == Apply(old(Now()), Callback(id))
      ensures old(tasks[id]).key !in pending && tasks == old(tasks) - {id}
      ensures forall key :: key in old(pending) && key != old(tasks[id]).key ==> key in pending && pending[key] == old(pending)[key]
    {
      var key := tasks[id].key;
      PendingNames(Now(), id);
      hide Sound, ArriveAt, GrantAt, BeginAt, LeaveAt;
      StepSound(Now(), Callback(id));
      if key in pending && pending[key] == id {
        pending := pending - {key};
      }
      tasks := tasks - {id};
    }
  }
}
