/** What the flood guard promises over whole runs. */
module DdosGuardProofs {
  import opened Net
  import opened DdosGuard
  import opened DdosMeters

  predicate Sane(cfg: Settings) {
    && 0.0 <= cfg.tcpRate && 0.0 <= cfg.tcpBurst
    && 0.0 <= cfg.packetRate && 0.0 <= cfg.packetBurst
    && 0.0 <= cfg.byteRate && 0.0 <= cfg.byteBurst
  }

  // ---------- invariant of one address ----------

  predicate BucketOk(b: TokenBucket, rate: real, burst: real, t: real) {
    b.rate == rate && b.burst == burst && 0.0 <= b.tokens <= burst && b.lastRefill <= t
  }

  predicate StateOk(cfg: Settings, s: IpState, t: real) {
    && BucketOk(s.tcp, cfg.tcpRate, cfg.tcpBurst, s.lastSeen)
    && BucketOk(s.packets, cfg.packetRate, cfg.packetBurst, s.lastSeen)
    && BucketOk(s.bytes, cfg.byteRate, cfg.byteBurst, s.lastSeen)
    && (s.lastViolation.Some? ==> s.lastViolation.value <= s.lastSeen)
    && s.lastSeen <= t
  }

  ghost predicate AllOk(cfg: Settings, states: States, t: real) {
    forall ip :: ip in states ==> StateOk(cfg, states[ip], t)
  }

  // ---------- settling: the part of a state that later calls can observe ----------

  function SettledBucket(b: TokenBucket, t: real): TokenBucket {
    Refill(b, t).(lastRefill := t)
  }

  function Settled(s: IpState, t: real): IpState {
    var stale := s.lastViolation.None? || Since(t, s.lastViolation.value) > VIOLATION_DECAY_AFTER;
    IpState(s.active,
            SettledBucket(s.tcp, t), SettledBucket(s.packets, t), SettledBucket(s.bytes, t),
            if stale then 0 else s.violations,
            if stale then None else s.lastViolation,
            if Blocked(s, t) then s.blockUntil else None,
            t)
  }

  function Standing(cfg: Settings, states: States, ip: IpAddr, t: real): IpState {
    Settled(Entry(cfg, states, ip, t), t)
  }

  lemma SettledBucketLater(b: TokenBucket, rate: real, burst: real, t: real, u: real)
    requires 0.0 <= rate && BucketOk(b, rate, burst, t) && t <= u
    ensures SettledBucket(b, u) == SettledBucket(SettledBucket(b, t), u)
    ensures SettledBucket(b, u).tokens == Min(SettledBucket(b, t).tokens + (u - t) * rate, burst)
  {
    assert (u - b.lastRefill) * rate == (t - b.lastRefill) * rate + (u - t) * rate;
    assert 0.0 <= (t - b.lastRefill) * rate;
    assert 0.0 <= (u - t) * rate;
  }

  lemma SettledLater(cfg: Settings, s: IpState, t: real, u: real)
    requires Sane(cfg) && StateOk(cfg, s, t) && t <= u
    ensures Settled(s, u) == Settled(Settled(s, t), u)
  {
    SettledBucketLater(s.tcp, cfg.tcpRate, cfg.tcpBurst, t, u);
    SettledBucketLater(s.packets, cfg.packetRate, cfg.packetBurst, t, u);
    SettledBucketLater(s.bytes, cfg.byteRate, cfg.byteBurst, t, u);
  }

  lemma StandingLater(cfg: Settings, states: States, ip: IpAddr, t: real, u: real)
    requires Sane(cfg) && AllOk(cfg, states, t) && t <= u
    ensures Standing(cfg, states, ip, u) == Settled(Standing(cfg, states, ip, t), u)
  {
    if ip in states {
      SettledLater(cfg, states[ip], t, u);
    } else {
      SettledLater(cfg, NewState(cfg, t), t, u);
      assert 0.0 <= (u - t) * cfg.tcpRate;
      assert 0.0 <= (u - t) * cfg.packetRate;
      assert 0.0 <= (u - t) * cfg.byteRate;
    }
  }

  // ---------- a call observes only the settled state ----------

  lemma ConsumeSettled(b: TokenBucket, rate: real, burst: real, amount: real, t: real)
    requires BucketOk(b, rate, burst, t)
    ensures Consume(b, amount, t).1 == Consume(SettledBucket(b, t), amount, t).1
    ensures SettledBucket(Consume(b, amount, t).0, t) == SettledBucket(Consume(SettledBucket(b, t), amount, t).0, t)
  {
  }

  lemma ViolationAlike(a: IpState, b: IpState, t: real, reason: DropReason)
    requires Settled(a, t) == Settled(b, t)
    requires !Blocked(a, t) && !Blocked(b, t)
    requires a.lastViolation.Some? ==> a.lastViolation.value <= t
    requires b.lastViolation.Some? ==> b.lastViolation.value <= t
    ensures RecordViolation(a, t, reason).outcome == RecordViolation(b, t, reason).outcome
    ensures Settled(RecordViolation(a, t, reason).state, t) == Settled(RecordViolation(b, t, reason).state, t)
  {
  }

  lemma OpenSettled(cfg: Settings, s: IpState, t: real)
    requires StateOk(cfg, s, t)
    ensures OpenOn(cfg, s, t).outcome == OpenOn(cfg, Settled(s, t), t).outcome
    ensures Settled(OpenOn(cfg, s, t).state, t) == Settled(OpenOn(cfg, Settled(s, t), t).state, t)
  {
    ConsumeSettled(s.tcp, cfg.tcpRate, cfg.tcpBurst, 1.0, t);
  }

  lemma DatagramSettled(cfg: Settings, s: IpState, size: nat, t: real)
    requires StateOk(cfg, s, t)
    ensures DatagramOn(cfg, s, size, t).outcome == DatagramOn(cfg, Settled(s, t), size, t).outcome
    ensures Settled(DatagramOn(cfg, s, size, t).state, t) == Settled(DatagramOn(cfg, Settled(s, t), size, t).state, t)
  {
    var z := Settled(s, t);
    if Blocked(s, t) {
    } else {
      var s1, z1 := s.(blockUntil := None), z.(blockUntil := None);
      var sp, zp := Consume(s1.packets, 1.0, t), Consume(z1.packets, 1.0, t);
      ConsumeSettled(s.packets, cfg.packetRate, cfg.packetBurst, 1.0, t);
      var s2, z2 := s1.(packets := sp.0), z1.(packets := zp.0);
      var sb, zb := Consume(s2.bytes, size as real, t), Consume(z2.bytes, size as real, t);
      ConsumeSettled(s.bytes, cfg.byteRate, cfg.byteBurst, size as real, t);
      var s3, z3 := s2.(bytes := sb.0), z2.(bytes := zb.0);
      assert Settled(s1, t) == Settled(z1, t) && Settled(s2, t) == Settled(z2, t) && Settled(s3, t) == Settled(z3, t);
      ViolationAlike(s1, z1, t, UdpDatagramTooLarge);
      ViolationAlike(s2, z2, t, UdpPacketRateLimit);
      ViolationAlike(s3, z3, t, UdpByteRateLimit);
    }
  }

  // ---------- the invariant is kept ----------

  lemma ConsumeKeepsOk(b: TokenBucket, rate: real, burst: real, amount: real, t: real)
    requires 0.0 <= rate && 0.0 <= amount && BucketOk(b, rate, burst, t)
    ensures BucketOk(Consume(b, amount, t).0, rate, burst, t)
  {
    assert 0.0 <= Since(t, b.lastRefill) * rate;
  }

  lemma OpenKeepsOk(cfg: Settings, s: IpState, t: real)
    requires Sane(cfg) && StateOk(cfg, s, t)
    ensures StateOk(cfg, OpenOn(cfg, s, t).state, t)
  {
    hide Consume;
    ConsumeKeepsOk(s.tcp, cfg.tcpRate, cfg.tcpBurst, 1.0, t);
  }

  lemma DatagramKeepsOk(cfg: Settings, s: IpState, size: nat, t: real)
    requires Sane(cfg) && StateOk(cfg, s, t)
    ensures StateOk(cfg, DatagramOn(cfg, s, size, t).state, t)
  {
    hide Consume;
    ConsumeKeepsOk(s.packets, cfg.packetRate, cfg.packetBurst, 1.0, t);
    ConsumeKeepsOk(s.bytes, cfg.byteRate, cfg.byteBurst, size as real, t);
  }

  lemma StepKeepsOk(cfg: Settings, prune: bool, states: States, e: Event, t: real)
    requires Sane(cfg) && AllOk(cfg, states, t) && t <= e.at
    ensures AllOk(cfg, Step(cfg, prune, states, e).0, e.at)
  {
    var kept := if prune then Prune(states, e.at) else states;
    match e.call
    case DropPermit(ip) =>
    case Open(ip) =>
      OpenKeepsOk(cfg, Entry(cfg, kept, ip, e.at), e.at);
    case Datagram(ip, size) =>
      DatagramKeepsOk(cfg, Entry(cfg, kept, ip, e.at), size, e.at);
  }

  // ---------- pruning ----------

  /** A state's spent tokens come back within the retention time, counted from when it was last seen. */
  predicate Shallow(m: Meter, cfg: Settings, s: IpState) {
    Burst(m, cfg) <= SettledBucket(BucketOf(m, s), s.lastSeen).tokens + Forgiven(m, cfg)
  }

  ghost predicate AllShallow(m: Meter, cfg: Settings, states: States) {
    forall ip :: ip in states ==> Shallow(m, cfg, states[ip])
  }

  lemma RefilledAfterRetention(b: TokenBucket, rate: real, burst: real, seen: real, now: real)
    requires 0.0 <= rate && BucketOk(b, rate, burst, seen)
    requires burst <= SettledBucket(b, seen).tokens + IDLE_STATE_RETENTION * rate && IDLE_STATE_RETENTION <= now - seen
    ensures SettledBucket(b, now) == NewBucket(rate, burst, now)
  {
    hide SettledBucket;
    SettledBucketLater(b, rate, burst, seen, now);
    assert IDLE_STATE_RETENTION * rate <= (now - seen) * rate by {
      assert 0.0 <= (now - seen - IDLE_STATE_RETENTION) * rate;
    }
    SettledFields(b, now);
  }

  lemma SettledFields(b: TokenBucket, t: real)
    ensures SettledBucket(b, t) == b.(tokens := SettledBucket(b, t).tokens, lastRefill := t)
  {
  }

  lemma BucketRefilled(m: Meter, cfg: Settings, s: IpState, now: real)
    requires Sane(cfg) && Shallow(m, cfg, s) && StateOk(cfg, s, now) && !Retained(s, now)
    ensures SettledBucket(BucketOf(m, s), now) == NewBucket(Rate(m, cfg), Burst(m, cfg), now)
  {
    hide SettledBucket;
    RefilledAfterRetention(BucketOf(m, s), Rate(m, cfg), Burst(m, cfg), s.lastSeen, now);
  }

  lemma PrunedIsFresh(cfg: Settings, s: IpState, now: real)
    requires Sane(cfg) && (forall m :: Shallow(m, cfg, s)) && StateOk(cfg, s, now) && !Retained(s, now)
    ensures Settled(s, now) == NewState(cfg, now)
  {
    hide SettledBucket;
    BucketRefilled(TcpConnections, cfg, s, now);
    BucketRefilled(UdpPackets, cfg, s, now);
    BucketRefilled(UdpBytes, cfg, s, now);
  }

  lemma PruneKeepsStanding(cfg: Settings, states: States, ip: IpAddr, now: real)
    requires Sane(cfg) && (forall m :: AllShallow(m, cfg, states)) && AllOk(cfg, states, now)
    ensures Standing(cfg, Prune(states, now), ip, now) == Standing(cfg, states, ip, now)
  {
    hide Shallow, Settled;
    if ip in states && !Retained(states[ip], now) {
      forall m ensures Shallow(m, cfg, states[ip]) {
        assert AllShallow(m, cfg, states);
      }
      PrunedIsFresh(cfg, states[ip], now);
      NewIsSettled(cfg, now);
    }
  }

  lemma NewIsSettled(cfg: Settings, now: real)
    ensures Settled(NewState(cfg, now), now) == NewState(cfg, now)
  {
  }

  /** Two maps no future call can tell apart. */
  ghost predicate Alike(cfg: Settings, p: States, u: States, t: real) {
    forall ip :: Standing(cfg, p, ip, t) == Standing(cfg, u, ip, t)
  }

  lemma UpdateKeepsAlike(cfg: Settings, p: States, u: States, who: IpAddr, x: IpState, y: IpState, t: real)
    requires Alike(cfg, p, u, t) && Settled(x, t) == Settled(y, t)
    ensures Alike(cfg, p[who := x], u[who := y], t)
  {
    var p', u' := p[who := x], u[who := y];
    forall ip ensures Standing(cfg, p', ip, t) == Standing(cfg, u', ip, t) {
      assert Standing(cfg, p, ip, t) == Standing(cfg, u, ip, t);
    }
  }

  lemma TimeAndPruningKeepAlike(cfg: Settings, p: States, u: States, t: real, now: real)
    requires Sane(cfg) && (forall m :: AllShallow(m, cfg, p))
    requires AllOk(cfg, p, t) && AllOk(cfg, u, t) && Alike(cfg, p, u, t) && t <= now
    ensures Alike(cfg, p, u, now) && Alike(cfg, Prune(p, now), u, now)
  {
    forall ip
      ensures Standing(cfg, p, ip, now) == Standing(cfg, u, ip, now) == Standing(cfg, Prune(p, now), ip, now)
    {
      assert Standing(cfg, p, ip, t) == Standing(cfg, u, ip, t);
      StandingLater(cfg, p, ip, t, now);
      StandingLater(cfg, u, ip, t, now);
      PruneKeepsStanding(cfg, p, ip, now);
    }
  }

  lemma CloseStanding(cfg: Settings, prune: bool, states: States, who: IpAddr, now: real, ip: IpAddr)
    requires cfg.enabled
    ensures Standing(cfg, Step(cfg, prune, states, Event(now, DropPermit(who))).0, ip, now) ==
            if ip == who then Settled(CloseOn(Standing(cfg, states, who, now), now), now)
            else Standing(cfg, states, ip, now)
  {
  }

  lemma CloseAlike(cfg: Settings, p: States, u: States, who: IpAddr, now: real)
    requires cfg.enabled && Alike(cfg, p, u, now)
    ensures Alike(cfg, Step(cfg, true, p, Event(now, DropPermit(who))).0,
                       Step(cfg, false, u, Event(now, DropPermit(who))).0, now)
  {
    var p', u' := Step(cfg, true, p, Event(now, DropPermit(who))).0, Step(cfg, false, u, Event(now, DropPermit(who))).0;
    forall ip ensures Standing(cfg, p', ip, now) == Standing(cfg, u', ip, now) {
      CloseStanding(cfg, true, p, who, now, ip);
      CloseStanding(cfg, false, u, who, now, ip);
      assert Standing(cfg, p, ip, now) == Standing(cfg, u, ip, now);
      assert Standing(cfg, p, who, now) == Standing(cfg, u, who, now);
    }
  }

  lemma StepsAlike(cfg: Settings, p: States, u: States, t: real, e: Event)
    requires Sane(cfg) && (forall m :: AllShallow(m, cfg, p))
    requires AllOk(cfg, p, t) && AllOk(cfg, u, t) && Alike(cfg, p, u, t) && t <= e.at
    ensures Step(cfg, true, p, e).1 == Step(cfg, false, u, e).1
    ensures Alike(cfg, Step(cfg, true, p, e).0, Step(cfg, false, u, e).0, e.at)
  {
    var now, who := e.at, e.call.ip;
    var kept := Prune(p, now);
    TimeAndPruningKeepAlike(cfg, p, u, t, now);
    var a, b := Entry(cfg, kept, who, now), Entry(cfg, u, who, now);
    assert Standing(cfg, kept, who, now) == Standing(cfg, u, who, now);
    match e.call
    case Open(_) =>
      OpenSettled(cfg, a, now);
      OpenSettled(cfg, b, now);
      UpdateKeepsAlike(cfg, kept, u, who, OpenOn(cfg, a, now).state, OpenOn(cfg, b, now).state, now);
    case Datagram(_, size) =>
      DatagramSettled(cfg, a, size, now);
      DatagramSettled(cfg, b, size, now);
      UpdateKeepsAlike(cfg, kept, u, who, DatagramOn(cfg, a, size, now).state, DatagramOn(cfg, b, size, now).state,
        now);
    case DropPermit(_) =>
      if cfg.enabled {
        CloseAlike(cfg, p, u, who, now);
      }
  }

  // ---------- whole runs ----------

  function Clock(events: seq<Event>): real
    requires events != []
  {
    events[|events| - 1].at
  }

  lemma {:induction false} RunOk(cfg: Settings, prune: bool, events: seq<Event>)
    requires Sane(cfg) && Monotone(events)
    ensures events == [] ==> After(cfg, prune, events) == map[]
    ensures events != [] ==> AllOk(cfg, After(cfg, prune, events), Clock(events))
  {
    if events != [] {
      var before, e := events[..|events| - 1], events[|events| - 1];
      RunOk(cfg, prune, before);
      var t := if before == [] then e.at else Clock(before);
      StepKeepsOk(cfg, prune, After(cfg, prune, before), e, t);
    }
  }
}
