/** CONNECT and RELEASE requests interleaved: port ownership and the bounded queue of waiters. */
module AllocatorQueue {
  import opened Net
  import opened Allocator

  /** Where a CONNECT task is between its lock sections. */
  datatype Phase = Trying | Enqueueing | Waiting | Dequeueing(outcome: Outcome) | Done(outcome: Outcome)

  datatype Task = Task(request: Request, queued: bool, phase: Phase)

  predicate Priority(t: Task) { t.request.token.Some? }

  datatype World = World(allocations: Allocations, tasks: map<nat, Task>, waiting: nat, waitingPriority: nat)

  const START: World := World(map[], map[], 0, 0)

  datatype Step =
    | Arrive(id: nat, request: Request)
    | Attempt(id: nat, offset: nat)
    | Enqueue(id: nat)
    | Wake(id: nat)
    | Dequeue(id: nat)
    | Release(port: u16)

  predicate Enabled(cfg: Config, w: World, s: Step) {
    match s
    case Arrive(id, _) => id !in w.tasks
    case Attempt(id, offset) =>
      id in w.tasks && w.tasks[id].phase.Trying? && (RangeSize(cfg) > 0 ==> offset < RangeSize(cfg))
    case Enqueue(id) => id in w.tasks && w.tasks[id].phase.Enqueueing?
    case Wake(id) => id in w.tasks && w.tasks[id].phase.Waiting?
    case Dequeue(id) => id in w.tasks && w.tasks[id].phase.Dequeueing?
    case Release(_) => true
  }

  function SetTask(w: World, id: nat, t: Task): World { w.(tasks := w.tasks[id := t]) }

  /** Where an attempt's answer sends a task. */
  function Next(cfg: Config, t: Task, outcome: Outcome): Phase {
    if outcome.Full? then
      if !cfg.queueEnabled then Done(Full) else if t.queued then Waiting else Enqueueing
    else if t.queued then Dequeueing(outcome) else Done(outcome)
  }

  function Decrement(n: nat): nat { if n > 0 then n - 1 else n }

  function Apply(cfg: Config, w: World, s: Step): World
    requires Enabled(cfg, w, s)
  {
    match s
    case Arrive(id, request) => SetTask(w, id, Task(request, false, Trying))
    case Attempt(id, offset) =>
      var t := w.tasks[id];
      var a := TryAllocate(cfg, w.allocations, t.request, offset);
      SetTask(w.(allocations := a.allocations), id, t.(phase := Next(cfg, t, a.outcome)))
    case Enqueue(id) =>
      var t := w.tasks[id];
      var joined := t.(queued := true, phase := Waiting);
      if Priority(t) then SetTask(w.(waitingPriority := w.waitingPriority + 1), id, joined)
      else if w.waiting >= cfg.queueMax then SetTask(w, id, t.(phase := Done(Full)))
      else SetTask(w.(waiting := w.waiting + 1), id, joined)
    case Wake(id) => SetTask(w, id, w.tasks[id].(phase := Trying))
    case Dequeue(id) =>
      var t := w.tasks[id];
      var left := t.(queued := false, phase := Done(t.phase.outcome));
      if Priority(t) then SetTask(w.(waitingPriority := Decrement(w.waitingPriority)), id, left)
      else SetTask(w.(waiting := Decrement(w.waiting)), id, left)
    case Release(port) => w.(allocations := w.allocations - {port})
  }

  predicate Runs(cfg: Config, w: World, steps: seq<Step>)
    decreases |steps|
  {
    steps == [] || (Enabled(cfg, w, steps[0]) && Runs(cfg, Apply(cfg, w, steps[0]), steps[1..]))
  }

  function After(cfg: Config, w: World, steps: seq<Step>): World
    requires Runs(cfg, w, steps)
    decreases |steps|
  {
    if steps == [] then w else After(cfg, Apply(cfg, w, steps[0]), steps[1..])
  }

  // ---------- the invariant ----------

  /** Every allocation is keyed by its own port, in range if the range is in order, and no token owns two ports. */
  ghost predicate PortsOk(cfg: Config, allocations: Allocations) {
    && (forall p :: p in allocations ==> allocations[p].port == p && (InOrder(cfg) ==> InRange(cfg, p)))
    && (forall p, q :: p in allocations && q in allocations && p != q ==>
          || allocations[p].token.None? || allocations[p].token.value == []
          || allocations[p].token != allocations[q].token)
  }

  function Queued(w: World, priority: bool): set<nat> {
    set id | id in w.tasks && w.tasks[id].queued && Priority(w.tasks[id]) == priority
  }

  ghost predicate QueueOk(cfg: Config, w: World) {
    && w.waiting == |Queued(w, false)| <= cfg.queueMax
    && w.waitingPriority == |Queued(w, true)|
    && (!cfg.queueEnabled ==> forall id :: id in w.tasks ==> !w.tasks[id].queued && !w.tasks[id].phase.Enqueueing?)
    && forall id :: id in w.tasks ==>
         match w.tasks[id].phase
         case Waiting => w.tasks[id].queued
         case Dequeueing(_) => w.tasks[id].queued
         case Enqueueing => !w.tasks[id].queued
         case Done(_) => !w.tasks[id].queued
         case Trying => true
  }

  ghost predicate Inv(cfg: Config, w: World) { PortsOk(cfg, w.allocations) && QueueOk(cfg, w) }

  lemma AttemptKeepsPorts(cfg: Config, allocations: Allocations, r: Request, offset: nat)
    requires PortsOk(cfg, allocations)
    ensures PortsOk(cfg, TryAllocate(cfg, allocations, r, offset).allocations)
  {
    AttemptOutcome(cfg, allocations, r, offset);
  }

  /** A task update that keeps its queueing keeps both queues. */
  lemma SameQueues(w: World, id: nat, t: Task)
    requires id in w.tasks ==> t.queued == w.tasks[id].queued && Priority(t) == Priority(w.tasks[id])
    requires id !in w.tasks ==> !t.queued
    ensures Queued(SetTask(w, id, t), false) == Queued(w, false) && Queued(SetTask(w, id, t), true) == Queued(w, true)
  {
  }

  lemma Joins(w: World, id: nat, t: Task)
    requires id in w.tasks && !w.tasks[id].queued && t.queued
    ensures |Queued(SetTask(w, id, t), Priority(t))| == |Queued(w, Priority(t))| + 1
    ensures Queued(SetTask(w, id, t), !Priority(t)) == Queued(w, !Priority(t))
  {
    assert Queued(SetTask(w, id, t), Priority(t)) == Queued(w, Priority(t)) + {id};
  }

  lemma Leaves(w: World, id: nat, t: Task)
    requires id in w.tasks && w.tasks[id].queued && !t.queued
    ensures var p := Priority(w.tasks[id]);
      && |Queued(w, p)| > 0 && |Queued(SetTask(w, id, t), p)| == |Queued(w, p)| - 1
      && Queued(SetTask(w, id, t), !p) == Queued(w, !p)
  {
    var p := Priority(w.tasks[id]);
    assert id in Queued(w, p);
    assert Queued(SetTask(w, id, t), p) == Queued(w, p) - {id};
  }

  lemma QueuedFrame(w: World, v: World, priority: bool)
    requires w.tasks == v.tasks
    ensures Queued(w, priority) == Queued(v, priority)
  {
  }

  lemma StepKeepsInv(cfg: Config, w: World, s: Step)
    requires Inv(cfg, w) && Enabled(cfg, w, s)
    ensures Inv(cfg, Apply(cfg, w, s))
    ensures s.Dequeue? ==> (if Priority(w.tasks[s.id]) then w.waitingPriority else w.waiting) > 0
  {
    hide TryAllocate, PortsOk, Queued;
    match s
    case Arrive(id, request) => SameQueues(w, id, Task(request, false, Trying));
    case Attempt(id, offset) =>
      var t := w.tasks[id];
      var a := TryAllocate(cfg, w.allocations, t.request, offset);
      AttemptKeepsPorts(cfg, w.allocations, t.request, offset);
      var w1 := w.(allocations := a.allocations);
      QueuedFrame(w, w1, true);
      QueuedFrame(w, w1, false);
      SameQueues(w1, id, t.(phase := Next(cfg, t, a.outcome)));
    case Enqueue(id) => EnqueueKeepsInv(cfg, w, id);
    case Wake(id) => SameQueues(w, id, w.tasks[id].(phase := Trying));
    case Dequeue(id) => DequeueKeepsInv(cfg, w, id);
    case Release(port) => ReleaseKeepsInv(cfg, w, port);
  }

  lemma EnqueueKeepsInv(cfg: Config, w: World, id: nat)
    requires Inv(cfg, w) && Enabled(cfg, w, Enqueue(id))
    ensures Inv(cfg, Apply(cfg, w, Enqueue(id)))
  {
    hide PortsOk, Queued;
    var t := w.tasks[id];
    var joined := t.(queued := true, phase := Waiting);
    if Priority(t) {
      var w1 := w.(waitingPriority := w.waitingPriority + 1);
      QueuedFrame(w, w1, true);
      QueuedFrame(w, w1, false);
      Joins(w1, id, joined);
    } else if w.waiting >= cfg.queueMax {
      SameQueues(w, id, t.(phase := Done(Full)));
    } else {
      var w1 := w.(waiting := w.waiting + 1);
      QueuedFrame(w, w1, true);
      QueuedFrame(w, w1, false);
      Joins(w1, id, joined);
    }
  }

  lemma DequeueKeepsInv(cfg: Config, w: World, id: nat)
    requires Inv(cfg, w) && Enabled(cfg, w, Dequeue(id))
    ensures Inv(cfg, Apply(cfg, w, Dequeue(id)))
    ensures (if Priority(w.tasks[id]) then w.waitingPriority else w.waiting) > 0
  {
    hide PortsOk, Queued;
    var t := w.tasks[id];
    var left := t.(queued := false, phase := Done(t.phase.outcome));
    Leaves(w, id, left);
    var w1 := if Priority(t) then w.(waitingPriority := Decrement(w.waitingPriority))
      else w.(waiting := Decrement(w.waiting));
    QueuedFrame(w, w1, true);
    QueuedFrame(w, w1, false);
    Leaves(w1, id, left);
  }

  lemma ReleaseKeepsInv(cfg: Config, w: World, port: u16)
    requires Inv(cfg, w)
    ensures Inv(cfg, Apply(cfg, w, Release(port)))
  {
    hide Queued;
    var w1 := w.(allocations := w.allocations - {port});
    QueuedFrame(w, w1, true);
    QueuedFrame(w, w1, false);
  }

  /**
   Allocator safety over every interleaving: ports in range and keyed by themselves, one port per
   token, and counters that are exactly the queued tasks, the anonymous ones within the limit.
   */
  lemma {:induction false} RunKeepsInv(cfg: Config, w: World, steps: seq<Step>)
    requires Inv(cfg, w) && Runs(cfg, w, steps)
    ensures Inv(cfg, After(cfg, w, steps))
    decreases |steps|
  {
    hide Inv, Apply, Enabled;
    if steps != [] {
      StepKeepsInv(cfg, w, steps[0]);
      RunKeepsInv(cfg, Apply(cfg, w, steps[0]), steps[1..]);
    }
  }

  lemma StartOk(cfg: Config)
    ensures Inv(cfg, START)
  {
    assert Queued(START, true) == {} && Queued(START, false) == {};
  }

  /** So it is in every state reached from the empty one. */
  lemma ReachableInv(cfg: Config, steps: seq<Step>)
    requires Runs(cfg, START, steps)
    ensures Inv(cfg, After(cfg, START, steps))
  {
    hide Inv, Runs, After;
    StartOk(cfg);
    RunKeepsInv(cfg, START, steps);
  }

  // ---------- a port has one owner until it is released ----------

  predicate Hands(cfg: Config, w: World, s: Step, port: u16)
    requires Enabled(cfg, w, s)
  {
    s.Attempt? && TryAllocate(cfg, w.allocations, w.tasks[s.id].request, s.offset).outcome == Allocated(port)
  }

  lemma StepOwnership(cfg: Config, w: World, s: Step, port: u16)
    requires Enabled(cfg, w, s)
    ensures Hands(cfg, w, s, port) ==> port !in w.allocations && port in Apply(cfg, w, s).allocations
    ensures port in w.allocations && s != Release(port) ==> port in Apply(cfg, w, s).allocations
  {
    hide TryAllocate;
    if s.Attempt? {
      AttemptOutcome(cfg, w.allocations, w.tasks[s.id].request, s.offset);
    }
  }

  lemma {:induction false} OwnedUntilReleased(cfg: Config, w: World, steps: seq<Step>, port: u16)
    requires Runs(cfg, w, steps) && port in w.allocations
    requires forall i :: 0 <= i < |steps| ==> steps[i] != Release(port)
    ensures port in After(cfg, w, steps).allocations
    decreases |steps|
  {
    hide Apply, Enabled;
    if steps != [] {
      StepOwnership(cfg, w, steps[0], port);
      OwnedUntilReleased(cfg, Apply(cfg, w, steps[0]), steps[1..], port);
    }
  }

  /** A port that has been handed out is not handed out again before it is released. */
  lemma NoDoubleHandout(cfg: Config, w: World, first: Step, between: seq<Step>, second: Step, port: u16)
    requires Enabled(cfg, w, first) && Hands(cfg, w, first, port)
    requires Runs(cfg, Apply(cfg, w, first), between)
    requires var w2 := After(cfg, Apply(cfg, w, first), between);
      Enabled(cfg, w2, second) && Hands(cfg, w2, second, port)
    ensures Release(port) in between
  {
    hide Apply, Hands;
    StepOwnership(cfg, w, first, port);
    if Release(port) !in between {
      OwnedUntilReleased(cfg, Apply(cfg, w, first), between, port);
    }
    StepOwnership(cfg, After(cfg, Apply(cfg, w, first), between), second, port);
  }

  // ---------- the shared state, changed under its locks ----------

  datatype ReleaseReply = Released | NotAllocated | OutsideRange

  class RelayState {
    var portAllocations: Allocations
    var waitingClients: nat
    var waitingPriorityClients: nat

    /** The shared part of a world. */
    ghost predicate Shows(w: World)
      reads this
    {
      portAllocations == w.allocations && waitingClients == w.waiting && waitingPriorityClients == w.waitingPriority
    }

    constructor ()
      ensures Shows(START)
    {
      portAllocations := map[];
      waitingClients := 0;
      waitingPriorityClients := 0;
    }

    /** The token check: a loop over the allocations' values. */
    method TokenInUseBy(token: Option<string>) returns (taken: bool)
      ensures taken == TokenTaken(portAllocations, token)
    {
      taken := false;
      if token.Some? && token.value != [] {
        var pending := portAllocations.Keys;
        while pending != {}
          invariant pending <= portAllocations.Keys
          invariant taken <==> exists p :: p in portAllocations && p !in pending && portAllocations[p].token == token
          decreases pending
        {
          var p :| p in pending;
          if portAllocations[p].token == token {
            taken := true;
          }
          pending := pending - {p};
        }
      }
    }

    /** One attempt under the write lock. */
    method TryAllocatePort(cfg: Config, r: Request, offset: nat) returns (outcome: Outcome)
      modifies this`portAllocations
      ensures Answer(portAllocations, outcome) == TryAllocate(cfg, old(portAllocations), r, offset)
    {
      var taken := TokenInUseBy(r.token);
      if taken {
        return TokenInUse;
      }
      if r.fixedPort.Some? {
        var candidate := r.fixedPort.value;
        if candidate < cfg.start || candidate > cfg.end || candidate in portAllocations {
          return Full;
        }
        portAllocations := portAllocations[candidate := Allocation(candidate, r.token, r.client)];
        return Allocated(candidate);
      }
      var size := RangeSize(cfg);
      for i := 0 to size
        invariant portAllocations == old(portAllocations)
        invariant Scan(cfg, portAllocations, r, offset, i) == Scan(cfg, portAllocations, r, offset, 0)
      {
        var candidate := (cfg.start + (offset + i) % size) % 65536;
        if candidate !in portAllocations {
          portAllocations := portAllocations[candidate := Allocation(candidate, r.token, r.client)];
          return Allocated(candidate);
        }
      }
      outcome := Full;
    }

    /** Joining the queue after a first Full: the lock section of a task's Enqueue step. */
    method JoinQueue(cfg: Config, ghost w: World, id: nat, priority: bool) returns (queued: bool)
      requires Shows(w) && Enabled(cfg, w, Enqueue(id)) && priority == Priority(w.tasks[id])
      modifies this
      ensures Shows(Apply(cfg, w, Enqueue(id)))
      ensures queued <==> Apply(cfg, w, Enqueue(id)).tasks[id].phase.Waiting?
    {
      if !priority {
        if waitingClients >= cfg.queueMax {
          return false;
        }
        waitingClients := waitingClients + 1;
      } else {
        waitingPriorityClients := waitingPriorityClients + 1;
      }
      queued := true;
    }

    /** Leaving the queue: the lock section of a task's Dequeue step. */
    method DecrementWaitingCounter(cfg: Config, ghost w: World, id: nat, priority: bool)
      requires Shows(w) && Enabled(cfg, w, Dequeue(id)) && priority == Priority(w.tasks[id])
      modifies this
      ensures Shows(Apply(cfg, w, Dequeue(id)))
    {
      if priority {
        if waitingPriorityClients > 0 {
          waitingPriorityClients := waitingPriorityClients - 1;
        }
      } else {
        if waitingClients > 0 {
          waitingClients := waitingClients - 1;
        }
      }
    }

    /** RELEASE of a well-formed port number. */
    method HandleRelease(cfg: Config, ghost w: World, port: u16) returns (reply: ReleaseReply)
      requires Shows(w)
      modifies this`portAllocations
      ensures Shows(Apply(cfg, w, Release(port)))
      ensures reply.Released? <==> port in w.allocations
      ensures reply.OutsideRange? <==> port !in w.allocations && !InRange(cfg, port)
    {
      if port in portAllocations {
        portAllocations := portAllocations - {port};
        return Released;
      }
      assert w.allocations - {port} == w.allocations;
      reply := if cfg.start <= port && port <= cfg.end then NotAllocated else OutsideRange;
    }
  }
}
