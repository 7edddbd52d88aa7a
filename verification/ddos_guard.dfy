/**
 The per-address flood guard: token buckets, violation counters, temporary blocks,
 permits and the idle-state pruner, for one lock-serialised sequence of calls.
 Instants and token counts are reals (seconds, tokens).
 */
module DdosGuard {
  import opened Net

  const VIOLATION_DECAY_AFTER: real := 30.0
  const TEMP_BLOCK_AFTER_VIOLATIONS: nat := 24
  const TEMP_BLOCK_BASE: real := 20.0
  const TEMP_BLOCK_MAX: real := 600.0
  const IDLE_STATE_RETENTION: real := 600.0

  datatype Settings = Settings(
    enabled: bool,
    tcpMaxActivePerIp: nat,
    tcpRate: real, tcpBurst: real,
    packetRate: real, packetBurst: real,
    byteRate: real, byteBurst: real,
    udpMaxDatagramBytes: nat)

  datatype DropReason =
    | TemporarilyBlocked
    | TcpActiveConnectionLimit
    | TcpNewConnectionRateLimit
    | UdpPacketRateLimit
    | UdpByteRateLimit
    | UdpDatagramTooLarge

  datatype Outcome = Admitted | Dropped(reason: DropReason) | Released

  datatype TokenBucket = TokenBucket(tokens: real, rate: real, burst: real, lastRefill: real)

  datatype IpState = IpState(
    active: nat,
    tcp: TokenBucket, packets: TokenBucket, bytes: TokenBucket,
    violations: nat,
    lastViolation: Option<real>,
    blockUntil: Option<real>,
    lastSeen: real)

  type States = map<IpAddr, IpState>

  function Min(a: real, b: real): real { if a < b then a else b }

  /** Elapsed time between two instants; an instant in the future counts as no time. */
  function Since(now: real, earlier: real): real { if now > earlier then now - earlier else 0.0 }

  // ---------- token bucket ----------

  function NewBucket(rate: real, burst: real, now: real): TokenBucket {
    TokenBucket(burst, rate, burst, now)
  }

  function Refill(b: TokenBucket, now: real): TokenBucket {
    var elapsed := Since(now, b.lastRefill);
    if elapsed <= 0.0 then b
    else b.(tokens := Min(b.tokens + elapsed * b.rate, b.burst), lastRefill := now)
  }

  function Consume(b: TokenBucket, amount: real, now: real): (TokenBucket, bool) {
    var r := Refill(b, now);
    if r.tokens < amount then (r, false) else (r.(tokens := r.tokens - amount), true)
  }

  // ---------- one address ----------

  datatype Verdict = Verdict(state: IpState, outcome: Outcome)

  function NewState(cfg: Settings, now: real): IpState {
    IpState(0,
            NewBucket(cfg.tcpRate, cfg.tcpBurst, now),
            NewBucket(cfg.packetRate, cfg.packetBurst, now),
            NewBucket(cfg.byteRate, cfg.byteBurst, now),
            0, None, None, now)
  }

  predicate Blocked(s: IpState, now: real) {
    s.blockUntil.Some? && s.blockUntil.value > now
  }

  /** How long the guard blocks an address at its n-th counted violation. */
  function BlockFor(violations: nat): real
    requires violations >= TEMP_BLOCK_AFTER_VIOLATIONS
  {
    Min(TEMP_BLOCK_BASE * (violations - TEMP_BLOCK_AFTER_VIOLATIONS + 1) as real, TEMP_BLOCK_MAX)
  }

  function RecordViolation(s: IpState, now: real, reason: DropReason): Verdict {
    var stale := s.lastViolation.None? || Since(now, s.lastViolation.value) > VIOLATION_DECAY_AFTER;
    var n := (if stale then 0 else s.violations) + 1;
    var s1 := s.(violations := n, lastViolation := Some(now), lastSeen := now);
    if n >= TEMP_BLOCK_AFTER_VIOLATIONS then
      Verdict(s1.(blockUntil := Some(now + BlockFor(n))), Dropped(TemporarilyBlocked))
    else
      Verdict(s1, Dropped(reason))
  }

  function OpenOn(cfg: Settings, s: IpState, now: real): Verdict {
    if Blocked(s, now) then Verdict(s.(lastSeen := now), Dropped(TemporarilyBlocked))
    else
      var s1 := s.(blockUntil := None);
      if s1.active >= cfg.tcpMaxActivePerIp then RecordViolation(s1, now, TcpActiveConnectionLimit)
      else
        var (b, ok) := Consume(s1.tcp, 1.0, now);
        var s2 := s1.(tcp := b);
        if !ok then RecordViolation(s2, now, TcpNewConnectionRateLimit)
        else Verdict(s2.(active := s2.active + 1, lastSeen := now), Admitted)
  }

  function DatagramOn(cfg: Settings, s: IpState, size: nat, now: real): Verdict {
    if Blocked(s, now) then Verdict(s.(lastSeen := now), Dropped(TemporarilyBlocked))
    else
      var s1 := s.(blockUntil := None);
      if size > cfg.udpMaxDatagramBytes then RecordViolation(s1, now, UdpDatagramTooLarge)
      else
        var (p, packetOk) := Consume(s1.packets, 1.0, now);
        var s2 := s1.(packets := p);
        if !packetOk then RecordViolation(s2, now, UdpPacketRateLimit)
        else
          var (b, byteOk) := Consume(s2.bytes, size as real, now);
          var s3 := s2.(bytes := b);
          if !byteOk then RecordViolation(s3, now, UdpByteRateLimit)
          else Verdict(s3.(lastSeen := now), Admitted)
  }

  function CloseOn(s: IpState, now: real): IpState {
    s.(active := if s.active > 0 then s.active - 1 else 0, lastSeen := now)
  }

  // ---------- the shared map ----------

  predicate Retained(s: IpState, now: real) {
    s.active > 0 || Blocked(s, now) || Since(now, s.lastSeen) < IDLE_STATE_RETENTION
  }

  function Prune(states: States, now: real): States {
    map ip | ip in states && Retained(states[ip], now) :: states[ip]
  }

  /** The state an address is treated as having: an absent one is created on first use. */
  function Entry(cfg: Settings, states: States, ip: IpAddr, now: real): IpState {
    if ip in states then states[ip] else NewState(cfg, now)
  }

  datatype Call = Open(ip: IpAddr) | Datagram(ip: IpAddr, size: nat) | DropPermit(ip: IpAddr)

  datatype Event = Event(at: real, call: Call)

  /** One call; `prune` chooses between the code and the reference map that never prunes. */
  function Step(cfg: Settings, prune: bool, states: States, e: Event): (States, Outcome) {
    if !cfg.enabled then (states, if e.call.DropPermit? then Released else Admitted)
    else
      match e.call
      case DropPermit(ip) =>
        (if ip in states then states[ip := CloseOn(states[ip], e.at)] else states, Released)
      case Open(ip) =>
        var kept := if prune then Prune(states, e.at) else states;
        var v := OpenOn(cfg, Entry(cfg, kept, ip, e.at), e.at);
        (kept[ip := v.state], v.outcome)
      case Datagram(ip, size) =>
        var kept := if prune then Prune(states, e.at) else states;
        var v := DatagramOn(cfg, Entry(cfg, kept, ip, e.at), size, e.at);
        (kept[ip := v.state], v.outcome)
  }

  function After(cfg: Settings, prune: bool, events: seq<Event>): States {
    if events == [] then map[]
    else Step(cfg, prune, After(cfg, prune, events[..|events| - 1]), events[|events| - 1]).0
  }

  /** The answer the guard gives to call number i of a run. */
  function Answer(cfg: Settings, prune: bool, events: seq<Event>, i: nat): Outcome
    requires i < |events|
  {
    Step(cfg, prune, After(cfg, prune, events[..i]), events[i]).1
  }

  predicate Monotone(events: seq<Event>) {
    forall i, j :: 0 <= i <= j < |events| ==> events[i].at <= events[j].at
  }
}
