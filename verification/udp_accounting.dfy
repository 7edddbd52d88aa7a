/** Counting UDP sessions while listener and receive tasks insert and remove them concurrently. */
module UdpAccounting {
  import opened Net

  const RECONNECT_IDLE_THRESHOLD_MS: nat := 3_000
  const ESTABLISHED_GRACE_MS: nat := 5_000
  const FAST_RECONNECT_IDLE_MS: nat := 1_000

  /** A new handshake resets an established session that has gone quiet. */
  predicate ShouldReset(idle: nat, establishedAge: Option<nat>) {
    establishedAge.Some? &&
    (idle >= RECONNECT_IDLE_THRESHOLD_MS ||
      (establishedAge.value >= ESTABLISHED_GRACE_MS && idle >= FAST_RECONNECT_IDLE_MS))
  }

  /**
   Sessions by peer, running receive tasks by session number, and the counters. `uncounted` are
   removals from the map whose close has not been counted yet.
   */
  datatype World = World(
    sessions: map<SocketAddr, nat>,
    tasks: map<nat, SocketAddr>,
    next: nat,
    opened_: nat,
    closed: nat,
    active: nat,
    uncounted: nat)

  const START: World := World(map[], map[], 0, 0, 0, 0, 0)

  /** One lock section or counter update. */
  datatype Step =
    | Insert(peer: SocketAddr)
    | Reset(peer: SocketAddr, idle: nat, establishedAge: Option<nat>)
    | Abort(task: nat)
    | TaskExit(task: nat)
    | CountClosed

  predicate Enabled(w: World, s: Step) {
    match s
    case Insert(peer) => peer !in w.sessions
    case Reset(peer, idle, age) => peer in w.sessions && ShouldReset(idle, age)
    case Abort(task) => task in w.tasks
    case TaskExit(task) => task in w.tasks
    case CountClosed => w.uncounted > 0
  }

  function Apply(w: World, s: Step): World
    requires Enabled(w, s)
  {
    match s
    case Insert(peer) =>
      w.(sessions := w.sessions[peer := w.next], tasks := w.tasks[w.next := peer], next := w.next + 1,
         opened_ := w.opened_ + 1, active := w.active + 1)
    case Reset(peer, _, _) => w.(sessions := w.sessions - {peer}, uncounted := w.uncounted + 1)
    case Abort(task) => w.(tasks := w.tasks - {task})
    case TaskExit(task) =>
      // a receive task removes whatever session its peer has by now, its own or a newer one
      var peer := w.tasks[task];
      var w1 := w.(tasks := w.tasks - {task});
      if peer in w.sessions then w1.(sessions := w.sessions - {peer}, uncounted := w.uncounted + 1) else w1
    case CountClosed =>
      w.(uncounted := w.uncounted - 1, closed := w.closed + 1,
         active := if w.active > 0 then w.active - 1 else w.active)
  }

  predicate Runs(w: World, steps: seq<Step>)
    decreases |steps|
  {
    steps == [] || (Enabled(w, steps[0]) && Runs(Apply(w, steps[0]), steps[1..]))
  }

  function After(w: World, steps: seq<Step>): World
    requires Runs(w, steps)
    decreases |steps|
  {
    if steps == [] then w else After(Apply(w, steps[0]), steps[1..])
  }

  /** Sessions opened and not closed are those in the map and those still to be counted. */
  predicate Balanced(w: World) {
    && w.opened_ == w.closed + w.active
    && w.active == |w.sessions| + w.uncounted
  }

  lemma StartBalanced()
    ensures Balanced(START)
  {
    assert START.sessions.Keys == {};
    assert |START.sessions| == |START.sessions.Keys|;
  }

  lemma RemoveOne(m: map<SocketAddr, nat>, peer: SocketAddr)
    requires peer in m
    ensures |m - {peer}| == |m| - 1
  {
    assert (m - {peer}).Keys == m.Keys - {peer};
    assert |m.Keys - {peer}| == |m.Keys| - 1;
    assert |m - {peer}| == |(m - {peer}).Keys| && |m| == |m.Keys|;
  }

  lemma AddOne(m: map<SocketAddr, nat>, peer: SocketAddr, n: nat)
    requires peer !in m
    ensures |m[peer := n]| == |m| + 1
  {
    assert m[peer := n].Keys == m.Keys + {peer};
    assert |m[peer := n]| == |m[peer := n].Keys| && |m| == |m.Keys|;
  }

  lemma StepBalanced(w: World, s: Step)
    requires Balanced(w) && Enabled(w, s)
    ensures Balanced(Apply(w, s))
    ensures s.CountClosed? ==> w.active > 0
  {
    match s
    case Insert(peer) => AddOne(w.sessions, peer, w.next);
    case Reset(peer, _, _) => RemoveOne(w.sessions, peer);
    case TaskExit(task) =>
      if w.tasks[task] in w.sessions {
        RemoveOne(w.sessions, w.tasks[task]);
      }
    case _ =>
  }

  /**
   In every interleaving opened minus closed is the number of sessions plus the removals not yet
   counted, so counting a close never finds the active counter at zero.
   */
  lemma {:induction false} CountersBalance(w: World, steps: seq<Step>)
    requires Balanced(w) && Runs(w, steps)
    ensures Balanced(After(w, steps))
    ensures forall i :: 0 <= i < |steps| && steps[i].CountClosed? ==>
      Runs(w, steps[..i]) && After(w, steps[..i]).active > 0
    decreases |steps|
  {
    if steps != [] {
      var w1, rest := Apply(w, steps[0]), steps[1..];
      StepBalanced(w, steps[0]);
      CountersBalance(w1, rest);
      forall i | 0 <= i < |steps| && steps[i].CountClosed?
        ensures Runs(w, steps[..i]) && After(w, steps[..i]).active > 0
      {
        if i > 0 {
          assert steps[..i][0] == steps[0] && steps[..i][1..] == rest[..i - 1];
          assert rest[i - 1].CountClosed?;
        }
      }
    }
  }

  /** Counting closes loses nothing: once all removals are counted, active is the number of sessions. */
  lemma SettledCounters(steps: seq<Step>)
    requires Runs(START, steps) && After(START, steps).uncounted == 0
    ensures After(START, steps).active == |After(START, steps).sessions|
  {
    hide Balanced, After, Runs;
    StartBalanced();
    CountersBalance(START, steps);
    BalancedActive(After(START, steps));
  }

  lemma BalancedActive(w: World)
    requires Balanced(w)
    ensures w.active == |w.sessions| + w.uncounted
  {
  }

  /** A receive task that outlives its session can remove its peer's newer session. */
  lemma OldTaskRemovesNewerSession(peer: SocketAddr)
    ensures var steps := [Insert(peer), Reset(peer, 3_000, Some(0)), Insert(peer), TaskExit(0)];
      && Runs(START, steps)
      && After(START, steps).sessions == map[] && After(START, steps).tasks == map[1 := peer]
      && After(START, steps).active == 2 && After(START, steps).uncounted == 2
  {
    var steps := [Insert(peer), Reset(peer, 3_000, Some(0)), Insert(peer), TaskExit(0)];
    var w1 := Apply(START, steps[0]);
    var w2 := Apply(w1, steps[1]);
    assert w2.sessions == map[];
    var w3 := Apply(w2, steps[2]);
    var w4 := Apply(w3, steps[3]);
    assert w4.sessions == map[] && w4.tasks == map[1 := peer];
    assert steps[1..] == [steps[1], steps[2], steps[3]];
    assert steps[1..][1..] == [steps[2], steps[3]];
    assert steps[1..][1..][1..] == [steps[3]];
    assert steps[1..][1..][1..][1..] == [];
    assert Runs(w4, []) && After(w4, []) == w4;
    assert Runs(w3, [steps[3]]) && After(w3, [steps[3]]) == w4;
    assert Runs(w2, [steps[2], steps[3]]) && After(w2, [steps[2], steps[3]]) == w4;
    assert Runs(w1, steps[1..]) && After(w1, steps[1..]) == w4;
  }

  /** The session table and its counters as the tasks share them. */
  class SessionTable {
    var world: World

    ghost predicate Valid()
      reads this
    {
      Balanced(world)
    }

    constructor ()
      ensures Valid() && world == START
    {
      hide Balanced;
      StartBalanced();
      world := START;
    }

    /** Insert unless the peer has a session by now. */
    method Obtain(peer: SocketAddr) returns (session: nat)
      requires Valid()
      modifies this
      ensures Valid() && peer in world.sessions && session == world.sessions[peer]
      ensures world == if peer in old(world).sessions then old(world) else Apply(old(world), Insert(peer))
    {
      if peer in world.sessions {
        return world.sessions[peer];
      }
      StepBalanced(world, Insert(peer));
      session := world.next;
      world := world.(sessions := world.sessions[peer := session], tasks := world.tasks[session := peer],
                      next := world.next + 1, opened_ := world.opened_ + 1, active := world.active + 1);
    }

    /** The reconnect path: drop a stale session, abort its task, count the close. */
    method ResetIfStale(peer: SocketAddr, idle: nat, establishedAge: Option<nat>) returns (reset: bool)
      requires Valid()
      modifies this
      ensures Valid() && reset == (peer in old(world).sessions && ShouldReset(idle, establishedAge))
      ensures reset ==> old(world).active > 0
      ensures reset ==>
        world == old(world).(sessions := old(world).sessions - {peer},
                             tasks := old(world).tasks - {old(world).sessions[peer]},
                             closed := old(world).closed + 1, active := old(world).active - 1)
      ensures !reset ==> world == old(world)
    {
      reset := peer in world.sessions && ShouldReset(idle, establishedAge);
      if reset {
        var stale := world.sessions[peer];
        StepBalanced(world, Reset(peer, idle, establishedAge));
        world := world.(sessions := world.sessions - {peer}, uncounted := world.uncounted + 1);
        world := world.(tasks := world.tasks - {stale});
        StepBalanced(world, CountClosed);
        world := Apply(world, CountClosed);
      }
    }

    /** A receive task ends: it removes its peer's entry and counts the close if there was one. */
    method ExitTask(task: nat)
      requires Valid() && task in world.tasks
      modifies this
      ensures Valid()
      ensures var peer := old(world).tasks[task];
        if peer in old(world).sessions
        then old(world).active > 0 &&
          world == old(world).(tasks := old(world).tasks - {task}, sessions := old(world).sessions - {peer},
                               closed := old(world).closed + 1, active := old(world).active - 1)
        else world == old(world).(tasks := old(world).tasks - {task})
    {
      var peer := world.tasks[task];
      var removed := peer in world.sessions;
      StepBalanced(world, TaskExit(task));
      world := Apply(world, TaskExit(task));
      if removed {
        StepBalanced(world, CountClosed);
        world := Apply(world, CountClosed);
      }
    }
  }
}
