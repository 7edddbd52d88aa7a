/** Runs built call by call: what one address can do to the flood guard, and what it is then met with. */
module DdosRuns {
  import opened Net
  import opened DdosGuard
  import opened DdosMeters
  import opened DdosGuardProofs
  import opened DdosPruning
  import opened DdosWindow

  /** All traffic of one address that a pruned run admits. */
  function Total(m: Meter, ip: IpAddr, cfg: Settings, run: seq<Event>): real {
    if run == [] then 0.0
    else
      var n := |run| - 1;
      Total(m, ip, cfg, run[..n]) + Cost(m, ip, run[n].call, Answer(cfg, true, run, n))
  }

  lemma {:induction false} TotalIsBetween(m: Meter, ip: IpAddr, cfg: Settings, run: seq<Event>, t1: real, t2: real)
    requires forall e :: e in run ==> t1 <= e.at <= t2
    ensures AdmittedBetween(m, ip, cfg, true, run, t1, t2) == Total(m, ip, cfg, run)
  {
    if run != [] {
      var n := |run| - 1;
      assert run[n] in run;
      TotalIsBetween(m, ip, cfg, run[..n], t1, t2);
    }
  }

  /** No open connection, no block. */
  predicate Rested(cfg: Settings, s: IpState, t: real) { s.active == 0 && s.blockUntil.None? && StateOk(cfg, s, t) }

  /** The state a call of the address would meet now. */
  function Meets(cfg: Settings, run: seq<Event>, ip: IpAddr, t: real): IpState {
    Entry(cfg, Prune(After(cfg, true, run), t), ip, t)
  }

  /** The level of a meter that it would meet. */
  function Met(m: Meter, cfg: Settings, run: seq<Event>, ip: IpAddr, t: real): real {
    LevelOf(m, Meets(cfg, run, ip, t), t)
  }

  /** The clock starts at zero. */
  predicate Started(run: seq<Event>) { forall i :: 0 <= i < |run| ==> 0.0 <= run[i].at }

  predicate Ready(cfg: Settings, run: seq<Event>, ip: IpAddr, t: real) {
    && 0.0 <= t && Started(run) && Monotone(run) && (run == [] || Clock(run) <= t)
    && Rested(cfg, Meets(cfg, run, ip, t), t)
  }

  /** The address has just called. */
  predicate Touched(cfg: Settings, run: seq<Event>, ip: IpAddr, t: real) {
    && run != [] && Started(run) && Monotone(run) && Clock(run) == t
    && var states := After(cfg, true, run);
       ip in states && states[ip].lastSeen == t && Rested(cfg, states[ip], t)
  }

  // ---------- starting, pausing, being forgotten ----------

  lemma Unknown(cfg: Settings, ip: IpAddr, t: real)
    requires Sane(cfg) && 0.0 <= t
    ensures Ready(cfg, [], ip, t) && forall m :: Met(m, cfg, [], ip, t) == Burst(m, cfg)
  {
    assert Meets(cfg, [], ip, t) == NewState(cfg, t);
    forall m ensures Met(m, cfg, [], ip, t) == Burst(m, cfg) {
      NewLevel(m, cfg, t);
    }
  }

  lemma TouchedIsReady(cfg: Settings, run: seq<Event>, ip: IpAddr, t: real)
    requires Sane(cfg) && Touched(cfg, run, ip, t)
    ensures Ready(cfg, run, ip, t) && Meets(cfg, run, ip, t) == After(cfg, true, run)[ip]
  {
    hide Step;
  }

  lemma MetInRange(m: Meter, cfg: Settings, run: seq<Event>, ip: IpAddr, t: real)
    requires Sane(cfg) && Ready(cfg, run, ip, t)
    ensures 0.0 <= Met(m, cfg, run, ip, t) <= Burst(m, cfg)
  {
    hide After, Prune, LevelOf;
    LevelOfLater(m, cfg, Meets(cfg, run, ip, t), t, t);
  }

  /** A pause within the retention time refills, and no more. */
  lemma Pause(cfg: Settings, run: seq<Event>, ip: IpAddr, t: real, u: real)
    requires Sane(cfg) && Touched(cfg, run, ip, t) && t <= u < t + IDLE_STATE_RETENTION
    ensures Ready(cfg, run, ip, u) && Meets(cfg, run, ip, u) == After(cfg, true, run)[ip]
    ensures forall m :: Met(m, cfg, run, ip, u) == Min(Met(m, cfg, run, ip, t) + Rate(m, cfg) * (u - t), Burst(m, cfg))
  {
    hide After, LevelOf;
    TouchedIsReady(cfg, run, ip, t);
    var s := After(cfg, true, run)[ip];
    forall m ensures Met(m, cfg, run, ip, u) == Min(Met(m, cfg, run, ip, t) + Rate(m, cfg) * (u - t), Burst(m, cfg)) {
      LevelOfLater(m, cfg, s, t, u);
    }
  }

  /** After the retention time the address is met as a new one. */
  lemma Forgotten(cfg: Settings, run: seq<Event>, ip: IpAddr, t: real)
    requires Sane(cfg) && Touched(cfg, run, ip, t)
    ensures var u := t + IDLE_STATE_RETENTION;
      Ready(cfg, run, ip, u) && forall m :: Met(m, cfg, run, ip, u) == Burst(m, cfg)
  {
    hide After, LevelOf;
    var u := t + IDLE_STATE_RETENTION;
    assert Meets(cfg, run, ip, u) == NewState(cfg, u);
    forall m ensures Met(m, cfg, run, ip, u) == Burst(m, cfg) {
      NewLevel(m, cfg, u);
    }
  }

  // ---------- calls ----------

  lemma OneMore(m: Meter, ip: IpAddr, cfg: Settings, run: seq<Event>, e: Event)
    requires Started(run) && 0.0 <= e.at && Monotone(run) && (run == [] || Clock(run) <= e.at)
    ensures var all := run + [e];
      && Started(all) && Monotone(all) && Clock(all) == e.at
      && After(cfg, true, all) == Step(cfg, true, After(cfg, true, run), e).0
      && Total(m, ip, cfg, all) == Total(m, ip, cfg, run) +
        Cost(m, ip, e.call, Step(cfg, true, After(cfg, true, run), e).1)
  {
    hide Step, Cost;
    var all := run + [e];
    assert all[..|run|] == run && all[|run|] == e;
  }

  lemma DatagramRests(cfg: Settings, s: IpState, size: nat, now: real)
    requires Sane(cfg) && Rested(cfg, s, now)
    requires size <= cfg.udpMaxDatagramBytes && 1.0 <= LevelOf(UdpPackets, s, now)
    requires size as real <= LevelOf(UdpBytes, s, now)
    ensures var v := DatagramOn(cfg, s, size, now);
      v.outcome.Admitted? && Rested(cfg, v.state, now) && v.state.lastSeen == now
  {
    DatagramKeepsOk(cfg, s, size, now);
  }

  /** Sending a datagram that fits. */
  lemma Send(cfg: Settings, run: seq<Event>, ip: IpAddr, t: real, size: nat) returns (all: seq<Event>)
    requires Sane(cfg) && cfg.enabled && Ready(cfg, run, ip, t)
    requires size <= cfg.udpMaxDatagramBytes && 1.0 <= Met(UdpPackets, cfg, run, ip, t)
    requires size as real <= Met(UdpBytes, cfg, run, ip, t)
    ensures Touched(cfg, all, ip, t)
    ensures Met(UdpPackets, cfg, all, ip, t) == Met(UdpPackets, cfg, run, ip, t) - 1.0
    ensures Met(UdpBytes, cfg, all, ip, t) == Met(UdpBytes, cfg, run, ip, t) - size as real
    ensures Total(UdpPackets, ip, cfg, all) == Total(UdpPackets, ip, cfg, run) + 1.0
    ensures Total(UdpBytes, ip, cfg, all) == Total(UdpBytes, ip, cfg, run) + size as real
  {
    hide After, DatagramOn, LevelOf, Prune, StateOk, Monotone, Started;
    var e := Event(t, Datagram(ip, size));
    all := run + [e];
    var s := Meets(cfg, run, ip, t);
    DatagramRests(cfg, s, size, t);
    DatagramLevels(cfg, s, size, t);
    OneMore(UdpPackets, ip, cfg, run, e);
    OneMore(UdpBytes, ip, cfg, run, e);
    assert Touched(cfg, all, ip, t);
    TouchedIsReady(cfg, all, ip, t);
  }

  lemma OpenRests(cfg: Settings, s: IpState, now: real)
    requires Sane(cfg) && Rested(cfg, s, now) && cfg.tcpMaxActivePerIp >= 1 && 1.0 <= LevelOf(TcpConnections, s, now)
    ensures var v := OpenOn(cfg, s, now);
      && v.outcome.Admitted? && Rested(cfg, CloseOn(v.state, now), now) && CloseOn(v.state, now).lastSeen == now
      && LevelOf(TcpConnections, CloseOn(v.state, now), now) == LevelOf(TcpConnections, s, now) - 1.0
  {
    OpenKeepsOk(cfg, s, now);
  }

  /** Opening a connection and closing it again. */
  lemma Connect(cfg: Settings, run: seq<Event>, ip: IpAddr, t: real) returns (all: seq<Event>)
    requires Sane(cfg) && cfg.enabled && cfg.tcpMaxActivePerIp >= 1 && Ready(cfg, run, ip, t)
    requires 1.0 <= Met(TcpConnections, cfg, run, ip, t)
    ensures Touched(cfg, all, ip, t)
    ensures Met(TcpConnections, cfg, all, ip, t) == Met(TcpConnections, cfg, run, ip, t) - 1.0
    ensures Total(TcpConnections, ip, cfg, all) == Total(TcpConnections, ip, cfg, run) + 1.0
  {
    hide After, OpenOn, CloseOn, LevelOf, Prune, StateOk, Monotone, Started;
    var e, d := Event(t, Open(ip)), Event(t, DropPermit(ip));
    var between := run + [e];
    all := between + [d];
    OpenRests(cfg, Meets(cfg, run, ip, t), t);
    OneMore(TcpConnections, ip, cfg, run, e);
    OneMore(TcpConnections, ip, cfg, between, d);
    assert Touched(cfg, all, ip, t);
    TouchedIsReady(cfg, all, ip, t);
  }

  lemma OversizeRests(cfg: Settings, s: IpState, now: real)
    requires Sane(cfg) && Rested(cfg, s, now) && s.lastSeen + 31.0 <= now
    ensures var v := DatagramOn(cfg, s, cfg.udpMaxDatagramBytes + 1, now);
      !v.outcome.Admitted? && Rested(cfg, v.state, now) && v.state.lastSeen == now
  {
    DatagramKeepsOk(cfg, s, cfg.udpMaxDatagramBytes + 1, now);
  }

  /** An oversized datagram now and then keeps the address known and costs it nothing. */
  lemma KeepKnown(cfg: Settings, run: seq<Event>, ip: IpAddr, t: real) returns (all: seq<Event>)
    requires Sane(cfg) && cfg.enabled && Touched(cfg, run, ip, t)
    ensures Touched(cfg, all, ip, t + 500.0)
    ensures forall m ::
      Met(m, cfg, all, ip, t + 500.0) == Min(Met(m, cfg, run, ip, t) + Rate(m, cfg) * 500.0, Burst(m, cfg))
    ensures forall m :: Total(m, ip, cfg, all) == Total(m, ip, cfg, run)
  {
    hide After, DatagramOn, LevelOf, StateOk, Monotone, Started;
    var u := t + 500.0;
    var e := Event(u, Datagram(ip, cfg.udpMaxDatagramBytes + 1));
    all := run + [e];
    Pause(cfg, run, ip, t, u);
    var s := Meets(cfg, run, ip, u);
    OversizeRests(cfg, s, u);
    DatagramLevels(cfg, s, cfg.udpMaxDatagramBytes + 1, u);
    forall m ensures Total(m, ip, cfg, all) == Total(m, ip, cfg, run) {
      OneMore(m, ip, cfg, run, e);
    }
    OneMore(UdpBytes, ip, cfg, run, e);
    assert Touched(cfg, all, ip, u);
    TouchedIsReady(cfg, all, ip, u);
  }

  /** Waiting for any time without being forgotten. */
  lemma {:induction false} Wait(cfg: Settings, run: seq<Event>, ip: IpAddr, t: real, pause: real)
    returns (all: seq<Event>)
    requires Sane(cfg) && cfg.enabled && Touched(cfg, run, ip, t) && 0.0 <= pause
    ensures Ready(cfg, all, ip, t + pause)
    ensures forall m ::
      Met(m, cfg, all, ip, t + pause) == Min(Met(m, cfg, run, ip, t) + Rate(m, cfg) * pause, Burst(m, cfg))
    ensures forall m :: Total(m, ip, cfg, all) == Total(m, ip, cfg, run)
    decreases pause.Floor
  {
    hide Touched, Ready, Met, Total;
    if pause < 600.0 {
      all := run;
      Pause(cfg, run, ip, t, t + pause);
    } else {
      var known := KeepKnown(cfg, run, ip, t);
      all := Wait(cfg, known, ip, t + 500.0, pause - 500.0);
      assert t + 500.0 + (pause - 500.0) == t + pause;
      forall m
        ensures Met(m, cfg, all, ip, t + pause) == Min(Met(m, cfg, run, ip, t) + Rate(m, cfg) * pause, Burst(m, cfg))
      {
        Twice(Met(m, cfg, run, ip, t), Rate(m, cfg), Burst(m, cfg), pause);
        assert Met(m, cfg, known, ip, t + 500.0) == Min(Met(m, cfg, run, ip, t) + Rate(m, cfg) * 500.0, Burst(m, cfg));
      }
    }
  }

  /** Rising in two stretches is rising in one. */
  lemma Twice(level: real, rate: real, burst: real, pause: real)
    requires 0.0 <= rate && 500.0 <= pause
    ensures Min(Min(level + rate * 500.0, burst) + rate * (pause - 500.0), burst) == Min(level + rate * pause, burst)
  {
    assert rate * pause == rate * 500.0 + rate * (pause - 500.0);
    assert 0.0 <= rate * (pause - 500.0);
  }
}
