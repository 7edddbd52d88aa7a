/** When a session prefixes a PROXY header, over every interleaving of client and backend datagrams. */
module UdpHeaders {
  import opened Net
  import opened ProxyProtocol
  import opened UdpSession

  datatype Event = FromClient(d: Datagram) | FromBackend(at: nat)

  /** A datagram that reached a target, with what led to it. */
  datatype Logged = Logged(target: nat, header: bool, checkedAt: nat, sentAt: nat, idleMs: nat, afterFailure: bool)

  /** A session's past: its state, what it sent, and whether a send has failed since. */
  datatype Run = Run(session: Session, log: seq<Logged>, failed: bool)

  predicate Failed(rule: Rule, s: Session, d: Datagram) {
    exists i :: s.activeTarget <= i < |rule.targets| && rule.targets[i].Some? && i in d.failing &&
      FirstUsable(rule, s, d) > i
  }

  /** The first target from the active one on whose send succeeds; the number of targets if none. */
  function FirstUsable(rule: Rule, s: Session, d: Datagram): nat { FirstUsableFrom(rule, s.activeTarget, d.failing) }

  function FirstUsableFrom(rule: Rule, i: nat, failing: set<nat>): nat
    decreases |rule.targets| - i
  {
    if i >= |rule.targets| then |rule.targets|
    else if rule.targets[i].Some? && i !in failing then i
    else FirstUsableFrom(rule, i + 1, failing)
  }

  function Step(rule: Rule, r: Run, e: Event): Run {
    match e
    case FromBackend(at) => r.(session := Touch(r.session, at))
    case FromClient(d) =>
      if ClientPayload(rule, d.packet) == [] then r
      else
        var a := HandleDatagram(rule, r.session, d);
        var failed := r.failed || Failed(rule, r.session, d);
        match a.sent
        case None => Run(a.session, r.log, failed)
        case Some(sent) =>
          Run(a.session,
              r.log + [Logged(sent.target, sent.header, d.checkedAt, d.sentAt, IdleMs(r.session, d.checkedAt), failed)],
              false)
  }

  function RunOf(rule: Rule, events: seq<Event>): Run {
    if events == [] then Run(FRESH, [], false)
    else Step(rule, RunOf(rule, events[..|events| - 1]), events[|events| - 1])
  }

  function Starts(e: Event): nat { match e case FromClient(d) => d.checkedAt case FromBackend(at) => at }

  function Ends(e: Event): nat { match e case FromClient(d) => d.touchedAt case FromBackend(at) => at }

  /** Clock readings of a run never go back. */
  predicate Timed(events: seq<Event>) {
    && (forall i :: 0 <= i < |events| ==> events[i].FromClient? ==>
      events[i].d.checkedAt <= events[i].d.sentAt <= events[i].d.touchedAt)
    && (forall i, j :: 0 <= i < j < |events| ==> Ends(events[i]) <= Starts(events[j]))
  }

  // ---------- one send ----------

  lemma {:induction false} SendOutcome(rule: Rule, s: Session, from: nat, failing: set<nat>, client: SocketAddr,
                                       payload: seq<byte>)
    ensures var a := TrySend(rule, s, from, failing, client, payload);
      var i := FirstUsableFrom(rule, from, failing);
      var hit := exists k :: from <= k < i && k < |rule.targets| && rule.targets[k].Some? && k in failing;
      && (a.sent.None? <==> i >= |rule.targets|)
      && (a.sent.Some? ==>
            && a.sent.value.target == i == a.session.activeTarget && from <= i < |rule.targets| && rule.targets[i].Some?
            && a.sent.value.header == (rule.raknet && rule.haproxy && (hit || !s.headerSent))
            && (rule.raknet && rule.haproxy ==> a.session.headerSent))
      && (a.sent.None? ==> a.session.activeTarget == s.activeTarget && (a.session.headerSent == (s.headerSent && !hit)))
      && a.session.lastActivityMs == s.lastActivityMs
      && (!(rule.raknet && rule.haproxy) && !s.headerSent ==> !a.session.headerSent)
    decreases |rule.targets| - from
  {
    if from < |rule.targets| {
      if rule.targets[from].None? {
        SendOutcome(rule, s, from + 1, failing, client, payload);
      } else if from in failing {
        SendOutcome(rule, s.(headerSent := false), from + 1, failing, client, payload);
        assert rule.targets[from].Some? && from in failing;
      }
    }
  }

  // ---------- every run ----------

  ghost predicate Consistent(rule: Rule, r: Run) {
    && (r.log != [] ==>
          && r.session.activeTarget < |rule.targets| && rule.targets[r.session.activeTarget].Some?
          && r.log[|r.log| - 1].target == r.session.activeTarget)
    && (rule.raknet && rule.haproxy ==> (r.session.headerSent <==> r.log != [] && !r.failed))
    && (!(rule.raknet && rule.haproxy) ==> !r.session.headerSent)
    && (r.log == [] ==> r.session.activeTarget == 0)
  }

  /** Why datagram k carries a header, or not. */
  predicate HeaderExplained(rule: Rule, log: seq<Logged>, k: nat)
    requires k < |log|
  {
    log[k].header <==>
      rule.raknet && rule.haproxy && (k == 0 || log[k].idleMs >= MAPPING_TIMEOUT_MS || log[k].afterFailure)
  }

  lemma UsableIsFirst(rule: Rule, i: nat, failing: set<nat>)
    requires i < |rule.targets| && rule.targets[i].Some?
    ensures FirstUsableFrom(rule, i, failing) >= |rule.targets| ==> i in failing
    ensures FirstUsableFrom(rule, i, failing) > i ==> i in failing
    ensures i in failing ==> FirstUsableFrom(rule, i, failing) > i
  {
    if i in failing {
      FirstUsableBound(rule, i + 1, failing);
    }
  }

  lemma {:induction false} FirstUsableBound(rule: Rule, i: nat, failing: set<nat>)
    requires i <= |rule.targets|
    ensures i <= FirstUsableFrom(rule, i, failing) <= |rule.targets|
    decreases |rule.targets| - i
  {
    if i < |rule.targets| && !(rule.targets[i].Some? && i !in failing) {
      FirstUsableBound(rule, i + 1, failing);
    }
  }

  lemma ClientStep(rule: Rule, r: Run, d: Datagram)
    requires Consistent(rule, r) && ClientPayload(rule, d.packet) != []
    ensures Consistent(rule, Step(rule, r, FromClient(d)))
    ensures var r1 := Step(rule, r, FromClient(d));
      |r1.log| > |r.log| ==> HeaderExplained(rule, r1.log, |r.log|)
  {
    hide ClientPayload, TrySend, FirstUsableFrom;
    var s1 := ReArm(rule, r.session, d.checkedAt);
    var payload := ClientPayload(rule, d.packet);
    SendOutcome(rule, s1, s1.activeTarget, d.failing, d.client, payload);
    var i := FirstUsableFrom(rule, s1.activeTarget, d.failing);
    if r.log != [] {
      UsableIsFirst(rule, s1.activeTarget, d.failing);
    }
    if s1.activeTarget <= |rule.targets| {
      FirstUsableBound(rule, s1.activeTarget, d.failing);
    }
    var hit := exists k :: s1.activeTarget <= k < i && k < |rule.targets| && rule.targets[k].Some? && k in d.failing;
    assert hit <==> Failed(rule, r.session, d);
  }

  lemma {:induction false} RunConsistent(rule: Rule, events: seq<Event>, k: nat)
    ensures Consistent(rule, RunOf(rule, events))
    ensures k < |RunOf(rule, events).log| ==> HeaderExplained(rule, RunOf(rule, events).log, k)
  {
    hide HandleDatagram, Failed;
    if events != [] {
      var before, e := events[..|events| - 1], events[|events| - 1];
      RunConsistent(rule, before, k);
      var r := RunOf(rule, before);
      if e.FromClient? && ClientPayload(rule, e.d.packet) != [] {
        ClientStep(rule, r, e.d);
        LogGrows(rule, r, e);
      }
    }
  }

  lemma LogGrows(rule: Rule, r: Run, e: Event)
    ensures r.log <= Step(rule, r, e).log && |Step(rule, r, e).log| <= |r.log| + 1
  {
  }

  // ---------- idle time ----------

  /** Everything sent so far is covered by the activity mark. */
  ghost predicate Covered(r: Run, now: nat) {
    && (forall i :: 0 <= i < |r.log| ==> Ms(r.log[i].sentAt) <= r.session.lastActivityMs)
    && r.session.lastActivityMs <= Ms(now)
    && (forall i, k :: 0 <= i < k < |r.log| ==>
      Ms(r.log[i].sentAt) + r.log[k].idleMs <= Ms(r.log[k].checkedAt) || r.log[k].idleMs == 0)
    && (forall i, k :: 0 <= i < k < |r.log| ==> r.log[i].sentAt <= r.log[k].checkedAt)
    && (forall i :: 0 <= i < |r.log| ==> r.log[i].sentAt <= now)
  }

  lemma MsMonotone(a: nat, b: nat)
    requires a <= b
    ensures Ms(a) <= Ms(b)
  {
  }

  lemma CoveredStep(rule: Rule, r: Run, e: Event, now: nat)
    requires Covered(r, now) && now <= Starts(e)
    requires e.FromClient? ==> e.d.checkedAt <= e.d.sentAt <= e.d.touchedAt
    ensures Covered(Step(rule, r, e), Ends(e))
  {
    hide ClientPayload, TrySend, Failed, Ms;
    MsMonotone(now, Starts(e));
    MsMonotone(Starts(e), Ends(e));
    if e.FromClient? && ClientPayload(rule, e.d.packet) != [] {
      var d := e.d;
      MsMonotone(d.sentAt, d.touchedAt);
      MsMonotone(d.checkedAt, d.sentAt);
      var s1 := ReArm(rule, r.session, d.checkedAt);
      SendOutcome(rule, s1, s1.activeTarget, d.failing, d.client, ClientPayload(rule, d.packet));
    }
  }

  lemma {:induction false} RunCovered(rule: Rule, events: seq<Event>)
    requires Timed(events)
    ensures Covered(RunOf(rule, events), if events == [] then 0 else Ends(events[|events| - 1]))
  {
    hide Step;
    if events != [] {
      var before, e := events[..|events| - 1], events[|events| - 1];
      RunCovered(rule, before);
      if before != [] {
        assert Ends(events[|events| - 2]) <= Starts(events[|events| - 1]);
      }
      CoveredStep(rule, RunOf(rule, before), e, if before == [] then 0 else Ends(before[|before| - 1]));
    }
  }

  /**
   No header into a live mapping: within ten seconds of any earlier datagram a session sends a
   header if and only if a send has failed in between.
   */
  lemma LiveMappingHeaderIff(rule: Rule, events: seq<Event>, i: nat, k: nat)
    requires Timed(events) && rule.raknet && rule.haproxy
    requires i < k < |RunOf(rule, events).log|
    requires var log := RunOf(rule, events).log; Ms(log[k].checkedAt) < Ms(log[i].sentAt) + MAPPING_TIMEOUT_MS
    ensures RunOf(rule, events).log[k].header <==> RunOf(rule, events).log[k].afterFailure
  {
    hide RunOf, Ms;
    RunCovered(rule, events);
    RunConsistent(rule, events, k);
  }

  /** Without failures a later header comes only when every earlier datagram is over 9,999 ms old. */
  lemma HeaderAfterSilence(rule: Rule, events: seq<Event>, i: nat, k: nat)
    requires Timed(events) && rule.raknet && rule.haproxy
    requires i < k < |RunOf(rule, events).log|
    requires RunOf(rule, events).log[k].header && !RunOf(rule, events).log[k].afterFailure
    ensures var log := RunOf(rule, events).log;
      && Ms(log[k].checkedAt) >= Ms(log[i].sentAt) + MAPPING_TIMEOUT_MS
      && log[k].sentAt >= log[k].checkedAt > log[i].sentAt + 9_999_000_000
  {
    var log := RunOf(rule, events).log;
    if Ms(log[k].checkedAt) < Ms(log[i].sentAt) + MAPPING_TIMEOUT_MS {
      LiveMappingHeaderIff(rule, events, i, k);
    }
    SentAfterCheck(rule, events, k);
    Truncation(log[i].sentAt, log[k].checkedAt);
  }

  lemma Truncation(a: nat, b: nat)
    requires Ms(b) >= Ms(a) + MAPPING_TIMEOUT_MS
    ensures b > a + 9_999_000_000
  {
  }

  lemma {:induction false} SentAfterCheck(rule: Rule, events: seq<Event>, k: nat)
    requires Timed(events) && k < |RunOf(rule, events).log|
    ensures RunOf(rule, events).log[k].checkedAt <= RunOf(rule, events).log[k].sentAt
  {
    hide HandleDatagram, Failed, ClientPayload;
    var before, e := events[..|events| - 1], events[|events| - 1];
    LogGrows(rule, RunOf(rule, before), e);
    if k < |RunOf(rule, before).log| {
      SentAfterCheck(rule, before, k);
    }
  }

  // ---------- targets ----------

  /** Failover only moves forward. */
  lemma {:induction false} TargetsMoveForward(rule: Rule, events: seq<Event>, i: nat, k: nat)
    requires i < k < |RunOf(rule, events).log|
    ensures RunOf(rule, events).log[i].target <= RunOf(rule, events).log[k].target
  {
    hide HandleDatagram, Failed, ClientPayload;
    var before, e := events[..|events| - 1], events[|events| - 1];
    var r := RunOf(rule, before);
    LogGrows(rule, r, e);
    if k < |r.log| {
      TargetsMoveForward(rule, before, i, k);
    } else {
      RunConsistent(rule, before, 0);
      if i < |r.log| - 1 {
        TargetsMoveForward(rule, before, i, |r.log| - 1);
      }
      ActiveMovesForward(rule, r.session, e.d);
    }
  }

  lemma ActiveMovesForward(rule: Rule, s: Session, d: Datagram)
    ensures var a := HandleDatagram(rule, s, d);
      a.sent.Some? ==> s.activeTarget <= a.sent.value.target == a.session.activeTarget
  {
    hide ClientPayload, TrySend;
    var s1 := ReArm(rule, s, d.checkedAt);
    SendOutcome(rule, s1, s1.activeTarget, d.failing, d.client, ClientPayload(rule, d.packet));
  }

  // ---------- the limits of the rule ----------

  const EXAMPLE_RULE: Rule := Rule(true, true, [Some(SocketAddr(V4([10, 0, 0, 1]), 19132))])

  function ExampleDatagram(at: nat, failing: set<nat>): Event {
    FromClient(Datagram(at, at, at, failing, SocketAddr(V4([8, 8, 8, 8]), 5000), [7]))
  }

  /** A failed send lets a header into a mapping that is one millisecond old. */
  lemma FailureReachesLiveMapping()
    ensures var events := [ExampleDatagram(0, {}), ExampleDatagram(1_000_000, {0}), ExampleDatagram(1_000_001, {})];
      Timed(events) && |RunOf(EXAMPLE_RULE, events).log| == 2 && RunOf(EXAMPLE_RULE, events).log[1].header
  {
    var events := [ExampleDatagram(0, {}), ExampleDatagram(1_000_000, {0}), ExampleDatagram(1_000_001, {})];
    assert events[..2] == [ExampleDatagram(0, {}), ExampleDatagram(1_000_000, {0})];
    assert events[..2][..1] == [ExampleDatagram(0, {})] && events[..2][..1][..0] == [];
    RunOne(0);
    var r1 := RunOf(EXAMPLE_RULE, events[..2][..1]);
    var r2 := RunOf(EXAMPLE_RULE, events[..2]);
    assert r2.session.headerSent == false && r2.log == r1.log && r2.session.activeTarget == 0;
    var r3 := RunOf(EXAMPLE_RULE, events);
    assert |r3.log| == 2 && r3.log[1].header;
  }

  lemma RunOne(at: nat)
    requires Ms(at) == 0
    ensures var r := RunOf(EXAMPLE_RULE, [ExampleDatagram(at, {})]);
      r.session == Session(true, 0, false, 0, 0) && |r.log| == 1 && r.log[0].header && r.log[0].sentAt == at &&
        !r.failed
  {
    assert [ExampleDatagram(at, {})][..0] == [];
  }

  /** Whole milliseconds are too coarse by up to one: this header comes 9,999.1 ms after a datagram. */
  lemma TruncationReachesLiveMapping()
    ensures var events := [ExampleDatagram(900_000, {}), ExampleDatagram(10_000_000_000, {})];
      var log := RunOf(EXAMPLE_RULE, events).log;
      Timed(events) && |log| == 2 && log[1].header && !log[1].afterFailure &&
        log[1].sentAt - log[0].sentAt < 10_000_000_000
  {
    var events := [ExampleDatagram(900_000, {}), ExampleDatagram(10_000_000_000, {})];
    assert events[..1] == [ExampleDatagram(900_000, {})] && events[..1][..0] == [];
    RunOne(900_000);
    var r1 := RunOf(EXAMPLE_RULE, events[..1]);
    var d := events[1].d;
    assert IdleMs(r1.session, d.checkedAt) == 10_000;
    assert !Failed(EXAMPLE_RULE, r1.session, d);
  }

  // ---------- NetherNet ----------

  /** Without RakNet handling every datagram passes unaltered, in both directions. */
  lemma NetherNetUntouched(rule: Rule, s: Session, d: Datagram, raw: seq<byte>, port: u16, rewritePorts: bool)
    requires !rule.raknet
    ensures HandleDatagram(rule, s, d).sent.Some? ==>
      HandleDatagram(rule, s, d).sent.value.wire == d.packet && !HandleDatagram(rule, s, d).sent.value.header
    ensures HandleDatagram(rule, s, d).session.established == s.established
    ensures Reply(rule, raw, port, rewritePorts) == raw
  {
    PlainWire(rule, s, s.activeTarget, d.failing, d.client, d.packet);
  }

  lemma {:induction false} PlainWire(rule: Rule, s: Session, from: nat, failing: set<nat>, client: SocketAddr,
                                     payload: seq<byte>)
    requires !rule.raknet
    ensures var a := TrySend(rule, s, from, failing, client, payload);
      a.session.established == s.established && (a.sent.Some? ==> a.sent.value.wire == payload && !a.sent.value.header)
    decreases |rule.targets| - from
  {
    if from < |rule.targets| {
      if rule.targets[from].None? {
        PlainWire(rule, s, from + 1, failing, client, payload);
      } else if from in failing {
        PlainWire(rule, s.(headerSent := false), from + 1, failing, client, payload);
      }
    }
  }

  /** A header never changes the payload behind it: stripping the chain gives the payload back. */
  lemma {:induction false} WireCarriesPayload(rule: Rule, s: Session, from: nat, failing: set<nat>,
                                              client: SocketAddr, payload: seq<byte>)
    requires !Signed(payload)
    ensures var a := TrySend(rule, s, from, failing, client, payload);
      a.sent.Some? ==>
        var chain := Chain(a.sent.value.wire);
        && chain.Ok? && a.sent.value.wire[chain.value.payloadOffset..] == payload
        && |chain.value.headers| == (if a.sent.value.header then 1 else 0)
        && a.sent.value.target < |rule.targets| && rule.targets[a.sent.value.target].Some?
        && (a.sent.value.header ==>
              var target := rule.targets[a.sent.value.target].value;
              chain.value.headers[0] == AsSeen(Header(client.ip, client.port, target.ip, target.port)))
    decreases |rule.targets| - from
  {
    hide Build, AsSeen, Signed;
    if from < |rule.targets| {
      if rule.targets[from].None? {
        WireCarriesPayload(rule, s, from + 1, failing, client, payload);
      } else if from in failing {
        WireCarriesPayload(rule, s.(headerSent := false), from + 1, failing, client, payload);
      } else {
        var target := rule.targets[from].value;
        var h := Header(client.ip, client.port, target.ip, target.port);
        OneHeaderRoundTripIff(h, true, payload);
        assert (Build(h, true) + payload)[|Build(h, true)|..] == payload;
      }
    }
  }
}
