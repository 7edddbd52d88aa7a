/** The flood guard refuses nothing it need not: when a call is admitted, read off the history. */
module DdosConformance {
  import opened Net
  import opened DdosGuard
  import opened DdosMeters
  import opened DdosGuardProofs
  import opened DdosPruning
  import opened DdosWindow
  import opened DdosInvariants

  /** A window that reaches past the last call takes no more than one that ends with it. */
  lemma {:induction false} SameUntilClock(m: Meter, ip: IpAddr, cfg: Settings, prune: bool, events: seq<Event>,
                                          t1: real, t2: real, u: real)
    requires Monotone(events) && (events != [] ==> Clock(events) <= t2 && Clock(events) <= u)
    ensures PaidBetween(m, ip, cfg, prune, events, t1, t2) == PaidBetween(m, ip, cfg, prune, events, t1, u)
  {
    if events != [] {
      SameUntilClock(m, ip, cfg, prune, events[..|events| - 1], t1, t2, u);
    }
  }

  /** The balance of a window that starts when the bucket was full. */
  ghost predicate Balances(m: Meter, ip: IpAddr, cfg: Settings, prune: bool, events: seq<Event>, t1: real, u: real) {
    && t1 <= u
    && PaidBetween(m, ip, cfg, prune, events, t1, u) + Level(m, cfg, After(cfg, prune, events), ip, u)
       == Burst(m, cfg) + Earned(m, cfg, t1, u)
  }

  lemma EmptyBalances(m: Meter, ip: IpAddr, cfg: Settings, prune: bool, events: seq<Event>, u: real)
    requires Sane(cfg) && Monotone(events) && (events == [] || Clock(events) < u)
    requires Level(m, cfg, After(cfg, prune, events), ip, u) == Burst(m, cfg)
    ensures Balances(m, ip, cfg, prune, events, u, u)
  {
    hide Level, Step;
    NothingPaidBefore(m, ip, cfg, prune, events, u, u);
  }

  lemma NoCallsFull(m: Meter, cfg: Settings, ip: IpAddr, u: real)
    ensures Level(m, cfg, map[], ip, u) == Burst(m, cfg)
  {
    NewLevel(m, cfg, u);
  }

  /** The last call of a run keeps the balance at its own time. */
  lemma CallKeepsBalance(m: Meter, ip: IpAddr, cfg: Settings, prune: bool, events: seq<Event>, t0: real)
    requires Sane(cfg) && cfg.enabled && (prune ==> Forgettable(m, cfg)) && Monotone(events) && events != []
    requires Balances(m, ip, cfg, prune, events[..|events| - 1], t0, Clock(events))
    ensures Balances(m, ip, cfg, prune, events, t0, Clock(events))
  {
    hide Level, Step, Earned, Paid, Forgettable;
    CallPays(m, ip, cfg, prune, events);
  }

  lemma TimeKeepsBalance(m: Meter, ip: IpAddr, cfg: Settings, prune: bool, events: seq<Event>, t0: real, u: real)
    requires Sane(cfg) && Monotone(events) && events != [] && Clock(events) <= u
    requires Balances(m, ip, cfg, prune, events, t0, Clock(events))
    requires Level(m, cfg, After(cfg, prune, events), ip, Clock(events)) + Earned(m, cfg, Clock(events), u) <=
      Burst(m, cfg)
    ensures Balances(m, ip, cfg, prune, events, t0, u)
  {
    hide Level, Step, Earned;
    RunOk(cfg, prune, events);
    LevelLater(m, cfg, After(cfg, prune, events), ip, Clock(events), u);
    SameUntilClock(m, ip, cfg, prune, events, t0, Clock(events), u);
    SplitWindow(m, cfg, t0, Clock(events), u);
  }

  /** Some window uses up exactly what the bucket lacks: the one since it was last full. */
  lemma {:induction false} LastFull(m: Meter, ip: IpAddr, cfg: Settings, prune: bool, events: seq<Event>, u: real)
    returns (t1: real)
    requires Sane(cfg) && cfg.enabled && (prune ==> Forgettable(m, cfg)) && Monotone(events)
    requires events != [] ==> Clock(events) <= u
    ensures Balances(m, ip, cfg, prune, events, t1, u)
    decreases |events|
  {
    hide Level, Step, Earned, Balances, PaidBetween, Forgettable;
    RunOk(cfg, prune, events);
    if events == [] {
      t1 := u;
      NoCallsFull(m, cfg, ip, u);
      EmptyBalances(m, ip, cfg, prune, events, u);
    } else {
      var now := Clock(events);
      t1 := LastFull(m, ip, cfg, prune, events[..|events| - 1], now);
      CallKeepsBalance(m, ip, cfg, prune, events, t1);
      var level := Level(m, cfg, After(cfg, prune, events), ip, now);
      if now < u {
        if level + Earned(m, cfg, now, u) <= Burst(m, cfg) {
          TimeKeepsBalance(m, ip, cfg, prune, events, t1, u);
        } else {
          LevelLater(m, cfg, After(cfg, prune, events), ip, now, u);
          EmptyBalances(m, ip, cfg, prune, events, u);
          t1 := u;
        }
      }
    }
  }

  /** No window can use up more. */
  lemma NoWindowUsesMore(m: Meter, ip: IpAddr, cfg: Settings, prune: bool, events: seq<Event>, t1: real, u: real)
    requires Sane(cfg) && cfg.enabled && (prune ==> Forgettable(m, cfg)) && Monotone(events)
    requires t1 <= u && (events != [] ==> Clock(events) <= u)
    ensures PaidBetween(m, ip, cfg, prune, events, t1, u) + Level(m, cfg, After(cfg, prune, events), ip, u)
            <= Burst(m, cfg) + Earned(m, cfg, t1, u)
  {
    hide Level, Step, Earned, Forgettable;
    RunOk(cfg, prune, events);
    var states := After(cfg, prune, events);
    if events == [] || Clock(events) < t1 {
      NothingPaidBefore(m, ip, cfg, prune, events, t1, u);
      assert AllOk(cfg, states, u);
      LevelLater(m, cfg, states, ip, u, u);
      SplitWindow(m, cfg, t1, u, u);
    } else {
      PotentialBound(m, ip, cfg, prune, events, t1, u);
      LevelLater(m, cfg, states, ip, Clock(events), u);
      SplitWindow(m, cfg, t1, Clock(events), u);
    }
  }

  /** Taking an amount now would keep every window, however long, within burst plus rate times duration. */
  ghost predicate Conforms(m: Meter, ip: IpAddr, cfg: Settings, prune: bool, events: seq<Event>, amount: real,
                           now: real) {
    forall t1 :: t1 <= now ==>
      PaidBetween(m, ip, cfg, prune, events, t1, now) + amount <= Burst(m, cfg) + Earned(m, cfg, t1, now)
  }

  /** The bucket holds an amount exactly when taking it conforms. */
  lemma LevelIffConforms(m: Meter, ip: IpAddr, cfg: Settings, prune: bool, events: seq<Event>, amount: real, now: real)
    requires Sane(cfg) && cfg.enabled && (prune ==> Forgettable(m, cfg)) && Monotone(events)
    requires events != [] ==> Clock(events) <= now
    ensures amount <= Level(m, cfg, After(cfg, prune, events), ip, now) <==>
      Conforms(m, ip, cfg, prune, events, amount, now)
  {
    hide Level, Step, Earned, PaidBetween, Forgettable;
    var level := Level(m, cfg, After(cfg, prune, events), ip, now);
    if amount <= level {
      forall t1 | t1 <= now
        ensures PaidBetween(m, ip, cfg, prune, events, t1, now) + amount <= Burst(m, cfg) + Earned(m, cfg, t1, now)
      {
        NoWindowUsesMore(m, ip, cfg, prune, events, t1, now);
      }
    }
    if Conforms(m, ip, cfg, prune, events, amount, now) {
      var t1 := LastFull(m, ip, cfg, prune, events, now);
    }
  }

  // ---------- the answers ----------

  predicate BlockedAt(states: States, ip: IpAddr, now: real) { ip in states && Blocked(states[ip], now) }

  lemma OpenOnIff(cfg: Settings, s: IpState, now: real)
    requires StateOk(cfg, s, now)
    ensures OpenOn(cfg, s, now).outcome.Admitted? <==>
      !Blocked(s, now) && s.active < cfg.tcpMaxActivePerIp && 1.0 <= LevelOf(TcpConnections, s, now)
  {
  }

  lemma EntryAfterPruning(cfg: Settings, states: States, ip: IpAddr, now: real)
    ensures Active(Prune(states, now), ip) == Active(states, ip) == Entry(cfg, Prune(states, now), ip, now).active
    ensures Active(states, ip) == Entry(cfg, states, ip, now).active
    ensures BlockedAt(states, ip, now) <==> Blocked(Entry(cfg, Prune(states, now), ip, now), now)
    ensures BlockedAt(states, ip, now) <==> Blocked(Entry(cfg, states, ip, now), now)
  {
  }

  lemma LaterOk(cfg: Settings, prune: bool, events: seq<Event>, now: real)
    requires Sane(cfg) && Monotone(events) && (events != [] ==> Clock(events) <= now)
    ensures AllOk(cfg, After(cfg, prune, events), now)
  {
    hide Step;
    RunOk(cfg, prune, events);
  }

  lemma KeptOk(cfg: Settings, states: States, now: real)
    requires Sane(cfg) && AllOk(cfg, states, now)
    ensures forall ip :: StateOk(cfg, Entry(cfg, states, ip, now), now)
    ensures forall ip :: StateOk(cfg, Entry(cfg, Prune(states, now), ip, now), now)
  {
  }

  /** The level a call meets is the one the history gives, pruned or not. */
  lemma LevelMet(m: Meter, cfg: Settings, prune: bool, events: seq<Event>, ip: IpAddr, now: real)
    requires Sane(cfg) && (prune ==> Forgettable(m, cfg)) && Monotone(events) && (events != [] ==> Clock(events) <= now)
    ensures var states := After(cfg, prune, events);
      Level(m, cfg, if prune then Prune(states, now) else states, ip, now) == Level(m, cfg, states, ip, now)
  {
    hide Level, After, Forgettable;
    LaterOk(cfg, prune, events, now);
    if prune {
      RunShallow(m, cfg, prune, events);
      PruneKeepsLevel(m, cfg, After(cfg, prune, events), ip, now);
    }
  }

  /**
   After any history a connection is admitted exactly when its address is not blocked, holds fewer
   permits than the limit, and one more connection keeps every window within the bound.
   */
  lemma OpenAdmittedIff(cfg: Settings, prune: bool, events: seq<Event>, ip: IpAddr, now: real)
    requires Sane(cfg) && cfg.enabled && (prune ==> Forgettable(TcpConnections, cfg))
    requires Monotone(events) && (events != [] ==> Clock(events) <= now) && PermitsOwned(cfg, prune, events)
    ensures Step(cfg, prune, After(cfg, prune, events), Event(now, Open(ip))).1.Admitted? <==>
      && !BlockedAt(After(cfg, prune, events), ip, now)
      && Outstanding(cfg, prune, events, ip) < cfg.tcpMaxActivePerIp
      && Conforms(TcpConnections, ip, cfg, prune, events, 1.0, now)
  {
    hide OpenOn, Prune, Conforms, Outstanding, After, LevelOf, Blocked, BlockedAt, Active, Forgettable;
    var states := After(cfg, prune, events);
    var kept := if prune then Prune(states, now) else states;
    LaterOk(cfg, prune, events, now);
    KeptOk(cfg, states, now);
    OpenOnIff(cfg, Entry(cfg, kept, ip, now), now);
    EntryAfterPruning(cfg, states, ip, now);
    PermitConservation(cfg, prune, events, ip);
    LevelMet(TcpConnections, cfg, prune, events, ip, now);
    LevelIffConforms(TcpConnections, ip, cfg, prune, events, 1.0, now);
  }

  /**
   After any history a datagram is admitted exactly when its address is not blocked, it is not too
   large, and both one more packet and its bytes keep every window within the bound; packets are
   admitted datagrams and those dropped for their bytes.
   */
  lemma DatagramAdmittedIff(cfg: Settings, prune: bool, events: seq<Event>, ip: IpAddr, size: nat, now: real)
    requires Sane(cfg) && cfg.enabled && (prune ==> Forgettable(UdpPackets, cfg) && Forgettable(UdpBytes, cfg))
    requires Monotone(events) && (events != [] ==> Clock(events) <= now)
    ensures Step(cfg, prune, After(cfg, prune, events), Event(now, Datagram(ip, size))).1.Admitted? <==>
      && !BlockedAt(After(cfg, prune, events), ip, now)
      && size <= cfg.udpMaxDatagramBytes
      && Conforms(UdpPackets, ip, cfg, prune, events, 1.0, now)
      && Conforms(UdpBytes, ip, cfg, prune, events, size as real, now)
  {
    hide DatagramOn, Prune, Conforms, After, LevelOf, Blocked, BlockedAt, Active, Forgettable;
    var states := After(cfg, prune, events);
    var kept := if prune then Prune(states, now) else states;
    LaterOk(cfg, prune, events, now);
    KeptOk(cfg, states, now);
    DatagramLevels(cfg, Entry(cfg, kept, ip, now), size, now);
    EntryAfterPruning(cfg, states, ip, now);
    LevelMet(UdpPackets, cfg, prune, events, ip, now);
    LevelMet(UdpBytes, cfg, prune, events, ip, now);
    LevelIffConforms(UdpPackets, ip, cfg, prune, events, 1.0, now);
    LevelIffConforms(UdpBytes, ip, cfg, prune, events, size as real, now);
  }

  /** Which calls spend a packet, again from the history: those whose address, size and packets pass. */
  lemma PacketSpentIff(cfg: Settings, prune: bool, events: seq<Event>, ip: IpAddr, size: nat, now: real)
    requires Sane(cfg) && cfg.enabled && (prune ==> Forgettable(UdpPackets, cfg))
    requires Monotone(events) && (events != [] ==> Clock(events) <= now)
    ensures Paid(UdpPackets, ip, cfg, prune, After(cfg, prune, events), Event(now, Datagram(ip, size))) ==
      if !BlockedAt(After(cfg, prune, events), ip, now) && size <= cfg.udpMaxDatagramBytes
         && Conforms(UdpPackets, ip, cfg, prune, events, 1.0, now) then 1.0 else 0.0
  {
    hide DatagramOn, Prune, Conforms, After, LevelOf, Blocked, BlockedAt, Active, Forgettable, Check;
    var states := After(cfg, prune, events);
    var kept := if prune then Prune(states, now) else states;
    LaterOk(cfg, prune, events, now);
    KeptOk(cfg, states, now);
    CheckAnswers(cfg, Entry(cfg, kept, ip, now), size, now);
    EntryAfterPruning(cfg, states, ip, now);
    LevelMet(UdpPackets, cfg, prune, events, ip, now);
    LevelIffConforms(UdpPackets, ip, cfg, prune, events, 1.0, now);
  }
}
