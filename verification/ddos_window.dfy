/** How much traffic the flood guard can admit from one address in any time window. */
module DdosWindow {
  import opened Net
  import opened DdosGuard
  import opened DdosMeters
  import opened DdosGuardProofs
  import opened DdosPruning

  /** What one answered call adds to a meter of one address. */
  function Cost(m: Meter, ip: IpAddr, call: Call, answer: Outcome): real {
    if !answer.Admitted? || call.ip != ip then 0.0
    else match (m, call)
      case (TcpConnections, Open(_)) => 1.0
      case (UdpPackets, Datagram(_, _)) => 1.0
      case (UdpBytes, Datagram(_, size)) => size as real
      case _ => 0.0
  }

  /** Traffic of one address admitted between two instants, both included. */
  function AdmittedBetween(m: Meter, ip: IpAddr, cfg: Settings, prune: bool, events: seq<Event>, t1: real,
                           t2: real): real {
    if events == [] then 0.0
    else
      var n := |events| - 1;
      AdmittedBetween(m, ip, cfg, prune, events[..n], t1, t2) +
      (if t1 <= events[n].at <= t2 then Cost(m, ip, events[n].call, Answer(cfg, prune, events, n)) else 0.0)
  }

  // ---------- tokens taken ----------

  /** What a datagram's checks decide, before counting a violation can turn the answer into a block. */
  function Check(cfg: Settings, s: IpState, size: nat, now: real): Outcome {
    if Blocked(s, now) then Dropped(TemporarilyBlocked)
    else if size > cfg.udpMaxDatagramBytes then Dropped(UdpDatagramTooLarge)
    else if LevelOf(UdpPackets, s, now) < 1.0 then Dropped(UdpPacketRateLimit)
    else if LevelOf(UdpBytes, s, now) < size as real then Dropped(UdpByteRateLimit)
    else Admitted
  }

  /** A call's tokens: what it admits, and the packet token of a datagram dropped for its bytes. */
  function Paid(m: Meter, ip: IpAddr, cfg: Settings, prune: bool, states: States, e: Event): real {
    if m.UdpPackets? && e.call.Datagram? && e.call.ip == ip then
      var kept := if prune then Prune(states, e.at) else states;
      var check := Check(cfg, Entry(cfg, kept, ip, e.at), e.call.size, e.at);
      if check.Admitted? || check == Dropped(UdpByteRateLimit) then 1.0 else 0.0
    else Cost(m, ip, e.call, Step(cfg, prune, states, e).1)
  }

  /** Tokens taken from one address's bucket between two instants, both included. */
  function PaidBetween(m: Meter, ip: IpAddr, cfg: Settings, prune: bool, events: seq<Event>, t1: real, t2: real): real {
    if events == [] then 0.0
    else
      var n := |events| - 1;
      PaidBetween(m, ip, cfg, prune, events[..n], t1, t2) +
      (if t1 <= events[n].at <= t2 then Paid(m, ip, cfg, prune, After(cfg, prune, events[..n]), events[n]) else 0.0)
  }

  /** The answer to a datagram is what its checks decide, or a block that its violation brings. */
  lemma CheckAnswers(cfg: Settings, s: IpState, size: nat, now: real)
    requires StateOk(cfg, s, now)
    ensures var answer, check := DatagramOn(cfg, s, size, now).outcome, Check(cfg, s, size, now);
      && (answer.Admitted? <==> check.Admitted?)
      && (answer != check ==> answer == Dropped(TemporarilyBlocked) && !Blocked(s, now))
      && (check.Admitted? || check == Dropped(UdpByteRateLimit) <==> TakesPacket(cfg, s, size, now))
  {
  }

  lemma AdmittedIsPaid(m: Meter, ip: IpAddr, cfg: Settings, prune: bool, states: States, e: Event)
    requires Sane(cfg) && cfg.enabled && AllOk(cfg, states, e.at)
    ensures var cost, paid := Cost(m, ip, e.call, Step(cfg, prune, states, e).1), Paid(m, ip, cfg, prune, states, e);
      0.0 <= cost <= paid && (!m.UdpPackets? ==> cost == paid)
  {
    hide DatagramOn, OpenOn, Check;
    if m.UdpPackets? && e.call.Datagram? && e.call.ip == ip {
      var kept := if prune then Prune(states, e.at) else states;
      CheckAnswers(cfg, Entry(cfg, kept, ip, e.at), e.call.size, e.at);
    }
  }

  lemma {:induction false} AdmittedAtMostPaid(m: Meter, ip: IpAddr, cfg: Settings, prune: bool, events: seq<Event>,
                                              t1: real, t2: real)
    requires Sane(cfg) && cfg.enabled && Monotone(events)
    ensures AdmittedBetween(m, ip, cfg, prune, events, t1, t2) <= PaidBetween(m, ip, cfg, prune, events, t1, t2)
    ensures !m.UdpPackets? ==>
      AdmittedBetween(m, ip, cfg, prune, events, t1, t2) == PaidBetween(m, ip, cfg, prune, events, t1, t2)
  {
    hide Step, Cost, Paid;
    if events != [] {
      var n := |events| - 1;
      AdmittedAtMostPaid(m, ip, cfg, prune, events[..n], t1, t2);
      RunOk(cfg, prune, events[..n]);
      AdmittedIsPaid(m, ip, cfg, prune, After(cfg, prune, events[..n]), events[n]);
    }
  }

  // ---------- levels ----------

  function Level(m: Meter, cfg: Settings, states: States, ip: IpAddr, t: real): real {
    LevelOf(m, Entry(cfg, states, ip, t), t)
  }

  lemma SplitWindow(m: Meter, cfg: Settings, a: real, b: real, c: real)
    requires Sane(cfg) && a <= b <= c
    ensures Earned(m, cfg, a, c) == Earned(m, cfg, a, b) + Earned(m, cfg, b, c)
    ensures 0.0 <= Earned(m, cfg, a, b) && 0.0 <= Earned(m, cfg, b, c)
  {
    var rate := Rate(m, cfg);
    assert rate * (c - a) == rate * (b - a) + rate * (c - b);
  }

  lemma NewLevel(m: Meter, cfg: Settings, t: real)
    ensures LevelOf(m, NewState(cfg, t), t) == Burst(m, cfg)
  {
  }

  /** With time a level rises at its rate up to the burst. */
  lemma LevelLater(m: Meter, cfg: Settings, states: States, ip: IpAddr, t: real, u: real)
    requires Sane(cfg) && AllOk(cfg, states, t) && t <= u
    ensures Level(m, cfg, states, ip, u) == Min(Level(m, cfg, states, ip, t) + Earned(m, cfg, t, u), Burst(m, cfg))
    ensures 0.0 <= Level(m, cfg, states, ip, t) <= Burst(m, cfg) && 0.0 <= Earned(m, cfg, t, u)
  {
    hide LevelOf, NewState, Earned, Burst;
    if ip in states {
      LevelOfLater(m, cfg, states[ip], t, u);
    } else {
      NewLevel(m, cfg, t);
      NewLevel(m, cfg, u);
      SplitWindow(m, cfg, t, u, u);
      BurstNotNegative(m, cfg);
    }
  }

  lemma BurstNotNegative(m: Meter, cfg: Settings)
    requires Sane(cfg)
    ensures 0.0 <= Burst(m, cfg)
  {
  }

  lemma PruneKeepsLevel(m: Meter, cfg: Settings, states: States, ip: IpAddr, now: real)
    requires Sane(cfg) && AllShallow(m, cfg, states) && AllOk(cfg, states, now)
    ensures Level(m, cfg, Prune(states, now), ip, now) == Level(m, cfg, states, ip, now)
  {
    hide SettledBucket, Shallow, StateOk, NewState;
    if ip in states && !Retained(states[ip], now) {
      BucketRefilled(m, cfg, states[ip], now);
      NewLevel(m, cfg, now);
    }
  }

  // ---------- every token is paid for out of the bucket ----------

  /** Every call lowers the level of its address by exactly what it takes. */
  lemma StepPays(m: Meter, cfg: Settings, prune: bool, states: States, ip: IpAddr, e: Event)
    requires Sane(cfg) && cfg.enabled && (prune ==> AllShallow(m, cfg, states)) && AllOk(cfg, states, e.at)
    ensures Level(m, cfg, Step(cfg, prune, states, e).0, ip, e.at) + Paid(m, ip, cfg, prune, states, e)
            == Level(m, cfg, states, ip, e.at)
  {
    hide OpenOn, DatagramOn, LevelOf, Check, AllShallow;
    var kept := if prune then Prune(states, e.at) else states;
    var who, now := e.call.ip, e.at;
    var s := Entry(cfg, kept, who, now);
    if !e.call.DropPermit? {
      assert Level(m, cfg, kept, ip, now) == Level(m, cfg, states, ip, now) by {
        if prune { PruneKeepsLevel(m, cfg, states, ip, now); }
      }
    }
    match e.call
    case Open(_) => OpenLevels(cfg, s, now);
    case Datagram(_, size) =>
      DatagramLevels(cfg, s, size, now);
      CheckAnswers(cfg, s, size, now);
    case DropPermit(_) =>
      if who in states {
        CloseLevel(m, states[who], now);
      }
  }

  lemma CloseLevel(m: Meter, s: IpState, now: real)
    ensures LevelOf(m, CloseOn(s, now), now) == LevelOf(m, s, now)
  {
  }

  lemma {:induction false} NothingPaidBefore(m: Meter, ip: IpAddr, cfg: Settings, prune: bool, events: seq<Event>,
                                             t1: real, t2: real)
    requires Monotone(events) && (events == [] || Clock(events) < t1)
    ensures PaidBetween(m, ip, cfg, prune, events, t1, t2) == 0.0
  {
    if events != [] {
      NothingPaidBefore(m, ip, cfg, prune, events[..|events| - 1], t1, t2);
    }
  }

  /** The level after a call, at the call's own time. */
  lemma CallPays(m: Meter, ip: IpAddr, cfg: Settings, prune: bool, events: seq<Event>)
    requires Sane(cfg) && cfg.enabled && (prune ==> Forgettable(m, cfg)) && Monotone(events) && events != []
    ensures var n := |events| - 1;
      var before := After(cfg, prune, events[..n]);
      && Level(m, cfg, After(cfg, prune, events), ip, Clock(events)) + Paid(m, ip, cfg, prune, before, events[n])
         == Level(m, cfg, before, ip, Clock(events))
      && AllOk(cfg, before, Clock(events))
  {
    hide Step, Level, Paid, Forgettable;
    var n := |events| - 1;
    RunOk(cfg, prune, events[..n]);
    if prune {
      RunShallow(m, cfg, prune, events[..n]);
    }
    StepPays(m, cfg, prune, After(cfg, prune, events[..n]), ip, events[n]);
  }

  /** What any window has taken, with what is left, never exceeds the burst plus what the window earned. */
  lemma {:induction false} PotentialBound(m: Meter, ip: IpAddr, cfg: Settings, prune: bool, events: seq<Event>,
                                          t1: real, t2: real)
    requires Sane(cfg) && cfg.enabled && (prune ==> Forgettable(m, cfg)) && Monotone(events)
    requires events != [] && t1 <= Clock(events) <= t2
    ensures PaidBetween(m, ip, cfg, prune, events, t1, t2) + Level(m, cfg, After(cfg, prune, events), ip, Clock(events))
            <= Burst(m, cfg) + Earned(m, cfg, t1, Clock(events))
  {
    hide Level, Step, Earned, Paid, Forgettable;
    var before := events[..|events| - 1];
    var states, now := After(cfg, prune, before), Clock(events);
    CallPays(m, ip, cfg, prune, events);
    if before == [] || Clock(before) < t1 {
      NothingPaidBefore(m, ip, cfg, prune, before, t1, t2);
      LevelLater(m, cfg, states, ip, now, now);
      SplitWindow(m, cfg, t1, now, now);
    } else {
      PotentialBound(m, ip, cfg, prune, before, t1, t2);
      RunOk(cfg, prune, before);
      LevelLater(m, cfg, states, ip, Clock(before), now);
      SplitWindow(m, cfg, t1, Clock(before), now);
    }
  }

  lemma {:induction false} PaidBound(m: Meter, ip: IpAddr, cfg: Settings, prune: bool, events: seq<Event>, t1: real,
                                     t2: real)
    requires Sane(cfg) && cfg.enabled && (prune ==> Forgettable(m, cfg)) && Monotone(events) && t1 <= t2
    ensures PaidBetween(m, ip, cfg, prune, events, t1, t2) <= Burst(m, cfg) + Earned(m, cfg, t1, t2)
  {
    hide Level, Step, Earned, Forgettable;
    SplitWindow(m, cfg, t1, t2, t2);
    BurstNotNegative(m, cfg);
    if events == [] || Clock(events) < t1 {
      NothingPaidBefore(m, ip, cfg, prune, events, t1, t2);
    } else if Clock(events) <= t2 {
      PotentialBound(m, ip, cfg, prune, events, t1, t2);
      RunOk(cfg, prune, events);
      LevelLater(m, cfg, After(cfg, prune, events), ip, Clock(events), Clock(events));
      SplitWindow(m, cfg, t1, Clock(events), t2);
    } else {
      PaidBound(m, ip, cfg, prune, events[..|events| - 1], t1, t2);
    }
  }

  /** Sliding-window bound, for every run and every window: the burst plus rate times duration. */
  lemma WindowBound(m: Meter, ip: IpAddr, cfg: Settings, prune: bool, events: seq<Event>, t1: real, t2: real)
    requires Sane(cfg) && cfg.enabled && (prune ==> Forgettable(m, cfg)) && Monotone(events) && t1 <= t2
    ensures AdmittedBetween(m, ip, cfg, prune, events, t1, t2) <= Burst(m, cfg) + Earned(m, cfg, t1, t2)
  {
    hide Forgettable, Earned, PaidBetween, AdmittedBetween;
    PaidBound(m, ip, cfg, prune, events, t1, t2);
    AdmittedAtMostPaid(m, ip, cfg, prune, events, t1, t2);
  }
}
