/** When the flood guard may forget an idle address: exactly the settings under which nothing is lost by it. */
module DdosPruning {
  import opened Net
  import opened DdosGuard
  import opened DdosMeters
  import opened DdosGuardProofs

  /** No call ever takes from the meter's bucket: connections, or packets, never pass. */
  predicate Untouched(m: Meter, cfg: Settings) {
    match m
    case TcpConnections => cfg.tcpMaxActivePerIp == 0 || cfg.tcpBurst < 1.0
    case UdpPackets => cfg.packetBurst < 1.0
    case UdpBytes => cfg.packetBurst < 1.0
  }

  /** The most bytes one admitted datagram can carry. */
  function LargestDatagram(cfg: Settings): int {
    if cfg.udpMaxDatagramBytes <= cfg.byteBurst.Floor then cfg.udpMaxDatagramBytes else cfg.byteBurst.Floor
  }

  /**
   The packet bucket keeps the byte bucket from emptying too far: largest datagrams sent as fast as
   packets allow never owe more bytes than come back within the retention time, whether sent on a full
   packet bucket, with one more packet waited for, or on and on.
   */
  predicate PacketsBoundBytes(cfg: Settings) {
    var largest, whole := LargestDatagram(cfg) as real, cfg.packetBurst.Floor as real;
    && largest * cfg.packetRate <= cfg.byteRate
    && largest * whole <= Forgiven(UdpBytes, cfg)
    && cfg.packetRate * (largest * (whole + 1.0) - Forgiven(UdpBytes, cfg)) <=
      cfg.byteRate * (whole + 1.0 - cfg.packetBurst)
  }

  /** The settings under which forgetting an idle address loses no spent token of a meter. */
  predicate Forgettable(m: Meter, cfg: Settings) {
    Untouched(m, cfg) || Refills(m, cfg) || (m.UdpBytes? && PacketsBoundBytes(cfg))
  }

  // ---------- what a state owes ----------

  function LevelOf(m: Meter, s: IpState, t: real): real { SettledBucket(BucketOf(m, s), t).tokens }

  /** Bytes owed are explained by a number of largest datagrams and a time, packets owed by the same. */
  predicate Explains(cfg: Settings, bytes: real, packets: real, datagrams: nat, time: real) {
    && 0.0 <= time
    && bytes <= LargestDatagram(cfg) as real * datagrams as real - cfg.byteRate * time
    && datagrams as real - cfg.packetRate * time <= packets
  }

  ghost predicate Explained(cfg: Settings, bytes: real, packets: real) {
    exists datagrams: nat, time :: Explains(cfg, bytes, packets, datagrams, time)
  }

  /** What a state keeps about a meter's bucket from call to call. */
  ghost predicate Keeps(m: Meter, cfg: Settings, s: IpState, t: real) {
    && (Untouched(m, cfg) ==> LevelOf(m, s, t) == Burst(m, cfg))
    && (m.UdpBytes? ==>
          Explained(cfg, cfg.byteBurst - LevelOf(UdpBytes, s, t), cfg.packetBurst - LevelOf(UdpPackets, s, t)))
  }

  lemma NothingOwed(cfg: Settings, packets: real)
    requires 0.0 <= packets
    ensures Explained(cfg, 0.0, packets)
  {
    assert Explains(cfg, 0.0, packets, 0, 0.0);
  }

  lemma LessOwed(cfg: Settings, bytes: real, packets: real, fewer: real, more: real)
    requires Explained(cfg, bytes, packets) && fewer <= bytes && packets <= more
    ensures Explained(cfg, fewer, more)
  {
    var n: nat, time :| Explains(cfg, bytes, packets, n, time);
    assert Explains(cfg, fewer, more, n, time);
  }

  lemma OneMoreDatagram(cfg: Settings, bytes: real, packets: real, size: nat)
    requires Explained(cfg, bytes, packets) && size <= LargestDatagram(cfg)
    ensures Explained(cfg, bytes + size as real, packets + 1.0)
  {
    var n: nat, time :| Explains(cfg, bytes, packets, n, time);
    var largest := LargestDatagram(cfg) as real;
    OneMoreTimes(largest, n);
    assert Explains(cfg, bytes + size as real, packets + 1.0, n + 1, time);
  }

  lemma OneMoreTimes(x: real, n: nat)
    ensures x * (n + 1) as real == x * n as real + x
  {
  }

  lemma OwedLater(cfg: Settings, bytes: real, packets: real, pause: real, bytesBack: real, packetsBack: real)
    requires Sane(cfg) && Explained(cfg, bytes, packets) && 0.0 <= pause
    requires bytesBack == cfg.byteRate * pause && packetsBack == cfg.packetRate * pause
    ensures Explained(cfg, bytes - bytesBack, packets - packetsBack)
  {
    var n: nat, time :| Explains(cfg, bytes, packets, n, time);
    assert cfg.byteRate * (time + pause) == cfg.byteRate * time + cfg.byteRate * pause;
    assert cfg.packetRate * (time + pause) == cfg.packetRate * time + cfg.packetRate * pause;
    assert Explains(cfg, bytes - bytesBack, packets - packetsBack, n, time + pause);
  }

  // ---------- time, and calls ----------

  lemma BucketLater(b: TokenBucket, rate: real, burst: real, t: real, u: real)
    requires 0.0 <= rate && BucketOk(b, rate, burst, t) && t <= u
    ensures SettledBucket(b, u).tokens == Min(SettledBucket(b, t).tokens + rate * (u - t), burst)
    ensures 0.0 <= SettledBucket(b, t).tokens <= burst && 0.0 <= rate * (u - t)
  {
    hide SettledBucket;
    SettledBucketLater(b, rate, burst, t, u);
    assert (u - t) * rate == rate * (u - t);
    SettledInRange(b, rate, burst, t);
  }

  lemma SettledInRange(b: TokenBucket, rate: real, burst: real, t: real)
    requires 0.0 <= rate && BucketOk(b, rate, burst, t)
    ensures 0.0 <= SettledBucket(b, t).tokens <= burst
  {
    assert 0.0 <= Since(t, b.lastRefill) * rate;
  }

  lemma LevelOfLater(m: Meter, cfg: Settings, s: IpState, t: real, u: real)
    requires Sane(cfg) && StateOk(cfg, s, t) && t <= u
    ensures LevelOf(m, s, u) == Min(LevelOf(m, s, t) + Earned(m, cfg, t, u), Burst(m, cfg))
    ensures 0.0 <= LevelOf(m, s, t) <= Burst(m, cfg) && 0.0 <= Earned(m, cfg, t, u)
  {
    hide SettledBucket;
    BucketLater(BucketOf(m, s), Rate(m, cfg), Burst(m, cfg), t, u);
  }

  lemma KeepsLater(m: Meter, cfg: Settings, s: IpState, t: real, u: real)
    requires Sane(cfg) && StateOk(cfg, s, t) && t <= u && Keeps(m, cfg, s, t)
    ensures Keeps(m, cfg, s, u)
  {
    hide LevelOf, Explained;
    LevelOfLater(m, cfg, s, t, u);
    if m.UdpBytes? {
      LevelOfLater(UdpPackets, cfg, s, t, u);
      var bytes, packets := cfg.byteBurst - LevelOf(UdpBytes, s, t), cfg.packetBurst - LevelOf(UdpPackets, s, t);
      var bytesBack, packetsBack := Earned(UdpBytes, cfg, t, u), Earned(UdpPackets, cfg, t, u);
      OwedLater(cfg, bytes, packets, u - t, bytesBack, packetsBack);
      var bytes', packets' := cfg.byteBurst - LevelOf(UdpBytes, s, u), cfg.packetBurst - LevelOf(UdpPackets, s, u);
      if bytes' == 0.0 {
        NothingOwed(cfg, packets');
      } else {
        LessOwed(cfg, bytes - bytesBack, packets - packetsBack, bytes', packets');
      }
    }
  }

  lemma NewKeeps(m: Meter, cfg: Settings, t: real)
    ensures Keeps(m, cfg, NewState(cfg, t), t)
  {
    NothingOwed(cfg, 0.0);
  }

  /** What a call does to the three levels, and that it marks the address as seen. */
  lemma OpenLevels(cfg: Settings, s: IpState, now: real)
    requires StateOk(cfg, s, now)
    ensures var v := OpenOn(cfg, s, now);
      && v.state.lastSeen == now
      && LevelOf(UdpPackets, v.state, now) == LevelOf(UdpPackets, s, now)
      && LevelOf(UdpBytes, v.state, now) == LevelOf(UdpBytes, s, now)
      && LevelOf(TcpConnections, v.state, now) ==
        LevelOf(TcpConnections, s, now) - (if v.outcome.Admitted? then 1.0 else 0.0)
      && (v.outcome.Admitted? ==> s.active < cfg.tcpMaxActivePerIp && 1.0 <= LevelOf(TcpConnections, s, now))
  {
  }

  /** Whether the size check and the packet bucket let a datagram through to the byte bucket. */
  predicate TakesPacket(cfg: Settings, s: IpState, size: nat, now: real) {
    !Blocked(s, now) && size <= cfg.udpMaxDatagramBytes && 1.0 <= LevelOf(UdpPackets, s, now)
  }

  lemma DatagramLevels(cfg: Settings, s: IpState, size: nat, now: real)
    requires StateOk(cfg, s, now)
    ensures var v := DatagramOn(cfg, s, size, now);
      && v.state.lastSeen == now
      && LevelOf(TcpConnections, v.state, now) == LevelOf(TcpConnections, s, now)
      && LevelOf(UdpPackets, v.state, now) ==
        LevelOf(UdpPackets, s, now) - (if TakesPacket(cfg, s, size, now) then 1.0 else 0.0)
      && LevelOf(UdpBytes, v.state, now) ==
        LevelOf(UdpBytes, s, now) - (if v.outcome.Admitted? then size as real else 0.0)
      && (v.outcome.Admitted? <==> TakesPacket(cfg, s, size, now) && size as real <= LevelOf(UdpBytes, s, now))
  {
  }

  lemma OpenKeeps(m: Meter, cfg: Settings, s: IpState, now: real)
    requires Sane(cfg) && StateOk(cfg, s, now) && Keeps(m, cfg, s, now)
    ensures Keeps(m, cfg, OpenOn(cfg, s, now).state, now)
  {
    hide OpenOn, LevelOf, Explained;
    OpenLevels(cfg, s, now);
    LevelOfLater(TcpConnections, cfg, s, now, now);
  }

  lemma DatagramKeeps(m: Meter, cfg: Settings, s: IpState, size: nat, now: real)
    requires Sane(cfg) && StateOk(cfg, s, now) && Keeps(m, cfg, s, now)
    ensures Keeps(m, cfg, DatagramOn(cfg, s, size, now).state, now)
  {
    hide DatagramOn, LevelOf, Explained;
    DatagramLevels(cfg, s, size, now);
    LevelOfLater(UdpPackets, cfg, s, now, now);
    LevelOfLater(UdpBytes, cfg, s, now, now);
    if m.UdpBytes? {
      var v := DatagramOn(cfg, s, size, now);
      var bytes, packets := cfg.byteBurst - LevelOf(UdpBytes, s, now), cfg.packetBurst - LevelOf(UdpPackets, s, now);
      if v.outcome.Admitted? {
        assert size <= LargestDatagram(cfg);
        OneMoreDatagram(cfg, bytes, packets, size);
      } else if TakesPacket(cfg, s, size, now) {
        LessOwed(cfg, bytes, packets, bytes, packets + 1.0);
      }
    }
  }

  ghost predicate AllKeep(m: Meter, cfg: Settings, states: States) {
    forall ip :: ip in states ==> Keeps(m, cfg, states[ip], states[ip].lastSeen)
  }

  lemma EntryKeeps(m: Meter, cfg: Settings, states: States, ip: IpAddr, now: real)
    requires Sane(cfg) && AllOk(cfg, states, now) && AllKeep(m, cfg, states)
    ensures Keeps(m, cfg, Entry(cfg, states, ip, now), now) && StateOk(cfg, Entry(cfg, states, ip, now), now)
  {
    hide Keeps;
    if ip in states {
      KeepsLater(m, cfg, states[ip], states[ip].lastSeen, now);
    } else {
      NewKeeps(m, cfg, now);
    }
  }

  lemma CloseKeeps(m: Meter, cfg: Settings, s: IpState, now: real)
    requires Keeps(m, cfg, s, now)
    ensures Keeps(m, cfg, CloseOn(s, now), now)
  {
  }

  lemma StepKeepsAll(m: Meter, cfg: Settings, prune: bool, states: States, e: Event)
    requires Sane(cfg) && AllOk(cfg, states, e.at) && AllKeep(m, cfg, states)
    ensures AllKeep(m, cfg, Step(cfg, prune, states, e).0)
  {
    hide Keeps, OpenOn, DatagramOn, StateOk;
    var kept := if prune then Prune(states, e.at) else states;
    var who, now := e.call.ip, e.at;
    EntryKeeps(m, cfg, kept, who, now);
    var s := Entry(cfg, kept, who, now);
    match e.call
    case Open(_) =>
      OpenLevels(cfg, s, now);
      OpenKeeps(m, cfg, s, now);
    case Datagram(_, size) =>
      DatagramLevels(cfg, s, size, now);
      DatagramKeeps(m, cfg, s, size, now);
    case DropPermit(_) =>
      if who in states {
        EntryKeeps(m, cfg, states, who, now);
        CloseKeeps(m, cfg, states[who], now);
      }
  }

  // ---------- debts are shallow ----------

  /** The heart of the packet bound: no number of datagrams in any time owes too much. */
  lemma DebtBounded(cfg: Settings, bytes: real, packets: real)
    requires Sane(cfg) && PacketsBoundBytes(cfg) && Explained(cfg, bytes, packets) && packets <= cfg.packetBurst
    ensures bytes <= Forgiven(UdpBytes, cfg)
  {
    hide PacketsBoundBytes, LargestDatagram, Forgiven, Sane;
    var n: nat, time :| Explains(cfg, bytes, packets, n, time);
    if n <= cfg.packetBurst.Floor {
      FewDatagrams(cfg, n, time);
    } else {
      ManyDatagrams(cfg, n, time);
    }
  }

  lemma FewDatagrams(cfg: Settings, n: nat, time: real)
    requires Sane(cfg) && PacketsBoundBytes(cfg) && 0.0 <= time && n <= cfg.packetBurst.Floor
    ensures LargestDatagram(cfg) as real * n as real - cfg.byteRate * time <= Forgiven(UdpBytes, cfg)
  {
    var largest, whole := LargestDatagram(cfg) as real, cfg.packetBurst.Floor as real;
    assert 0.0 <= largest;
    assert largest * n as real <= largest * whole;
    assert 0.0 <= cfg.byteRate * time;
  }

  lemma ManyDatagrams(cfg: Settings, n: nat, time: real)
    requires Sane(cfg) && PacketsBoundBytes(cfg) && 0.0 <= time && n > cfg.packetBurst.Floor
    requires n as real - cfg.packetRate * time <= cfg.packetBurst
    ensures LargestDatagram(cfg) as real * n as real - cfg.byteRate * time <= Forgiven(UdpBytes, cfg)
  {
    var largest, whole := LargestDatagram(cfg) as real, cfg.packetBurst.Floor as real;
    Arithmetic(largest, whole, cfg.packetBurst, cfg.packetRate, cfg.byteRate, Forgiven(UdpBytes, cfg), n as real, time);
  }

  lemma Arithmetic(largest: real, whole: real, burst: real, p: real, r: real, forgiven: real, n: real, time: real)
    requires 0.0 <= p && 0.0 <= r && 0.0 <= time && burst < n && whole + 1.0 <= n
    requires n - p * time <= burst && largest * p <= r
    requires p * (largest * (whole + 1.0) - forgiven) <= r * (whole + 1.0 - burst)
    ensures largest * n - r * time <= forgiven
  {
    var owed, extra := largest * n - r * time, n - whole - 1.0;
    assert p > 0.0;
    assert r * (n - burst) <= r * (p * time);
    assert largest * p * extra <= r * extra;
    assert r * (n - burst) == r * (whole + 1.0 - burst) + r * extra;
    assert p * owed == largest * p * (whole + 1.0) + largest * p * extra - r * (p * time);
    assert p * (largest * (whole + 1.0) - forgiven) == largest * p * (whole + 1.0) - p * forgiven;
    Linear(p * owed, largest * p * (whole + 1.0), largest * p * extra, r * (p * time), r * (whole + 1.0 - burst),
           r * extra, p * forgiven);
    NotMore(p, owed, forgiven);
  }

  lemma Linear(owed: real, x: real, y: real, z: real, u: real, v: real, forgiven: real)
    requires owed == x + y - z && y <= v && u + v <= z && x - forgiven <= u
    ensures owed <= forgiven
  {
  }

  lemma NotMore(p: real, a: real, b: real)
    requires 0.0 < p && p * a <= p * b
    ensures a <= b
  {
    assert p * (a - b) <= 0.0;
  }

  lemma KeptIsShallow(m: Meter, cfg: Settings, s: IpState)
    requires Sane(cfg) && Forgettable(m, cfg) && StateOk(cfg, s, s.lastSeen) && Keeps(m, cfg, s, s.lastSeen)
    ensures Shallow(m, cfg, s)
  {
    hide LevelOf, Explained, PacketsBoundBytes, StateOk;
    var t := s.lastSeen;
    LevelOfLater(m, cfg, s, t, t);
    ForgivenNotNegative(m, cfg);
    if !Untouched(m, cfg) && !Refills(m, cfg) {
      LevelOfLater(UdpPackets, cfg, s, t, t);
      DebtBounded(cfg, cfg.byteBurst - LevelOf(UdpBytes, s, t), cfg.packetBurst - LevelOf(UdpPackets, s, t));
    }
    assert LevelOf(m, s, t) == SettledBucket(BucketOf(m, s), t).tokens by { LevelIsSettled(m, s, t); }
  }

  lemma LevelIsSettled(m: Meter, s: IpState, t: real)
    ensures LevelOf(m, s, t) == SettledBucket(BucketOf(m, s), t).tokens
  {
  }

  lemma ForgivenNotNegative(m: Meter, cfg: Settings)
    requires Sane(cfg)
    ensures 0.0 <= Forgiven(m, cfg)
  {
  }

  lemma {:induction false} RunKeeps(m: Meter, cfg: Settings, prune: bool, events: seq<Event>)
    requires Sane(cfg) && Monotone(events)
    ensures AllKeep(m, cfg, After(cfg, prune, events))
  {
    hide Step, Keeps;
    if events != [] {
      var n := |events| - 1;
      RunKeeps(m, cfg, prune, events[..n]);
      RunOk(cfg, prune, events[..n]);
      StepKeepsAll(m, cfg, prune, After(cfg, prune, events[..n]), events[n]);
    }
  }

  /** Under a forgettable meter every state of every run is shallow. */
  lemma RunShallow(m: Meter, cfg: Settings, prune: bool, events: seq<Event>)
    requires Sane(cfg) && Forgettable(m, cfg) && Monotone(events)
    ensures AllShallow(m, cfg, After(cfg, prune, events))
  {
    hide Step, Keeps, Forgettable, Shallow, StateOk;
    RunKeeps(m, cfg, prune, events);
    RunOk(cfg, prune, events);
    var states := After(cfg, prune, events);
    forall ip | ip in states ensures Shallow(m, cfg, states[ip]) {
      OkWhenSeen(cfg, states[ip], Clock(events));
      KeptIsShallow(m, cfg, states[ip]);
    }
  }

  lemma OkWhenSeen(cfg: Settings, s: IpState, t: real)
    requires StateOk(cfg, s, t)
    ensures StateOk(cfg, s, s.lastSeen)
  {
  }

  // ---------- pruning is invisible ----------

  lemma {:induction false} RunsAlike(cfg: Settings, events: seq<Event>)
    requires Sane(cfg) && (forall m :: Forgettable(m, cfg)) && Monotone(events) && events != []
    ensures Alike(cfg, After(cfg, true, events), After(cfg, false, events), Clock(events))
    ensures Answer(cfg, true, events, |events| - 1) == Answer(cfg, false, events, |events| - 1)
  {
    hide Forgettable, Step, Alike;
    var before, e := events[..|events| - 1], events[|events| - 1];
    var p, u := After(cfg, true, before), After(cfg, false, before);
    RunOk(cfg, true, before);
    RunOk(cfg, false, before);
    forall m ensures AllShallow(m, cfg, p) {
      assert Forgettable(m, cfg);
      RunShallow(m, cfg, true, before);
    }
    var t := if before == [] then e.at else Clock(before);
    if before != [] {
      RunsAlike(cfg, before);
    } else {
      NothingAlike(cfg, t);
    }
    StepsAlike(cfg, p, u, t, e);
  }

  lemma NothingAlike(cfg: Settings, t: real)
    ensures Alike(cfg, map[], map[], t)
  {
  }

  /** Pruning is invisible: every call gets the answer an unpruned map would give. */
  lemma PruningIsInvisible(cfg: Settings, events: seq<Event>, i: nat)
    requires Sane(cfg) && (forall m :: Forgettable(m, cfg)) && Monotone(events) && i < |events|
    ensures Answer(cfg, true, events, i) == Answer(cfg, false, events, i)
  {
    hide Forgettable;
    var upTo := events[..i + 1];
    assert upTo[..i] == events[..i];
    RunsAlike(cfg, upTo);
  }
}
