/** One UDP session towards the backend: PROXY header re-arming, failover and idle time. */
module UdpSession {
  import opened Net
  import opened ProxyProtocol
  import opened Pong

  const MAPPING_TIMEOUT_MS: nat := 10_000

  /** Whole milliseconds since the session started, from nanoseconds. */
  function Ms(ns: nat): nat { ns / 1_000_000 }

  function SatSub(a: nat, b: nat): nat { if a > b then a - b else 0 }

  /** What the listener's rule says; a target without a UDP port is skipped. */
  datatype Rule = Rule(raknet: bool, haproxy: bool, targets: seq<Option<SocketAddr>>)

  datatype Session = Session(
    headerSent: bool,
    lastActivityMs: nat,
    established: bool,
    establishedAtMs: nat,
    activeTarget: nat)

  const FRESH: Session := Session(false, 0, false, 0, 0)

  function IdleMs(s: Session, now: nat): nat { SatSub(Ms(now), s.lastActivityMs) }

  function Touch(s: Session, now: nat): Session { s.(lastActivityMs := Ms(now)) }

  function MarkEstablished(s: Session, now: nat): Session {
    if s.established then s else s.(established := true, establishedAtMs := Ms(now))
  }

  /** Forget that the header was sent once the backend's mapping has had time to expire. */
  function ReArm(rule: Rule, s: Session, now: nat): Session {
    if rule.raknet && rule.haproxy && IdleMs(s, now) >= MAPPING_TIMEOUT_MS then s.(headerSent := false) else s
  }

  /** A datagram that reached a target. */
  datatype Sent = Sent(target: nat, header: bool, wire: seq<byte>)

  datatype Attempt = Attempt(session: Session, sent: Option<Sent>)

  function NeedsHeader(rule: Rule, s: Session): bool {
    rule.raknet && rule.haproxy && !s.headerSent
  }

  function WireFor(rule: Rule, s: Session, client: SocketAddr, target: SocketAddr, payload: seq<byte>): seq<byte> {
    if NeedsHeader(rule, s) then Build(Header(client.ip, client.port, target.ip, target.port), true) + payload
      else payload
  }

  /** Try the targets from one on; `failing` are those whose send errors this time. */
  function TrySend(rule: Rule, s: Session, from: nat, failing: set<nat>, client: SocketAddr,
                   payload: seq<byte>): Attempt
    decreases |rule.targets| - from
  {
    if from >= |rule.targets| then Attempt(s, None)
    else if rule.targets[from].None? then TrySend(rule, s, from + 1, failing, client, payload)
    else if from in failing then TrySend(rule, s.(headerSent := false), from + 1, failing, client, payload)
    else
      var header := NeedsHeader(rule, s);
      Attempt(s.(headerSent := s.headerSent || header, activeTarget := from),
              Some(Sent(from, header, WireFor(rule, s, client, rule.targets[from].value, payload))))
  }

  // ---------- datagrams of the client ----------

  /** The bytes behind an incoming PROXY chain, for RakNet listeners only. */
  function ClientPayload(rule: Rule, packet: seq<byte>): seq<byte> {
    if rule.raknet && |packet| >= 12 && packet[..12] == SIGNATURE then
      match Chain(packet) case Ok(p) => packet[p.payloadOffset..] case Err(_) => packet
    else packet
  }

  /** A client datagram with the instants of its three clock readings. */
  datatype Datagram = Datagram(checkedAt: nat, sentAt: nat, touchedAt: nat, failing: set<nat>, client: SocketAddr,
                               packet: seq<byte>)

  function HandleDatagram(rule: Rule, s: Session, d: Datagram): Attempt {
    var payload := ClientPayload(rule, d.packet);
    if payload == [] then Attempt(s, None)
    else
      var s1 := ReArm(rule, s, d.checkedAt);
      var a := TrySend(rule, s1, s1.activeTarget, d.failing, d.client, payload);
      if a.sent.None? then a
      else
        var s2 := Touch(a.session, d.touchedAt);
        Attempt(if rule.raknet && 0x80 <= payload[0] <= 0x8d then MarkEstablished(s2, d.touchedAt) else s2, a.sent)
  }

  // ---------- replies of the backend ----------

  /** What the client receives for a backend datagram. */
  function Reply(rule: Rule, raw: seq<byte>, port: u16, rewritePorts: bool): seq<byte> {
    if !rule.raknet then raw
    else
      var stripped :=
        if |raw| >= 12 && raw[..12] == SIGNATURE then
          match Chain(raw) case Ok(p) => raw[p.payloadOffset..] case Err(_) => raw
        else raw;
      if stripped != [] && stripped[0] == PONG_ID then Process(stripped, port, rewritePorts) else stripped
  }

  // ---------- the session object ----------

  class UdpUpstream {
    const rule: Rule
    var headerSent: bool
    var lastActivityMs: nat
    var established: bool
    var establishedAtMs: nat
    var activeTarget: nat
    var wire: seq<Sent>

    ghost function View(): Session
      reads this
    {
      Session(headerSent, lastActivityMs, established, establishedAtMs, activeTarget)
    }

    constructor (rule: Rule)
      ensures this.rule == rule && View() == FRESH && wire == []
    {
      this.rule := rule;
      headerSent, lastActivityMs, established, establishedAtMs, activeTarget := false, 0, false, 0, 0;
      wire := [];
    }

    method TouchNow(now: nat)
      modifies this
      ensures View() == Touch(old(View()), now) && wire == old(wire)
    {
      lastActivityMs := now / 1_000_000;
    }

    method MarkEstablishedNow(now: nat)
      modifies this
      ensures View() == MarkEstablished(old(View()), now) && wire == old(wire)
    {
      if !established {
        established := true;
        establishedAtMs := now / 1_000_000;
      }
    }

    /** Failover: the first target at or after the active one whose send succeeds. */
    method TrySendUdp(failing: set<nat>, client: SocketAddr, payload: seq<byte>) returns (ok: bool)
      modifies this
      ensures var a := TrySend(rule, old(View()), old(activeTarget), failing, client, payload);
        View() == a.session && ok == a.sent.Some? && wire == old(wire) + (if ok then [a.sent.value] else [])
    {
      var index := activeTarget;
      while index < |rule.targets|
        invariant wire == old(wire) && activeTarget == old(activeTarget)
        invariant TrySend(rule, View(), index, failing, client, payload) ==
                  TrySend(rule, old(View()), old(activeTarget), failing, client, payload)
        decreases |rule.targets| - index
      {
        if rule.targets[index].Some? {
          if index in failing {
            headerSent := false;
          } else {
            var need := rule.raknet && rule.haproxy && !headerSent;
            var target := rule.targets[index].value;
            var out := if need then Build(Header(client.ip, client.port, target.ip, target.port), true) + payload
              else payload;
            wire := wire + [Sent(index, need, out)];
            headerSent := headerSent || need;
            activeTarget := index;
            return true;
          }
        }
        index := index + 1;
      }
      ok := false;
    }

    method HandleClientDatagram(d: Datagram) returns (ok: bool)
      modifies this
      ensures var a := HandleDatagram(rule, old(View()), d);
        View() == a.session && ok == a.sent.Some? && wire == old(wire) + (if ok then [a.sent.value] else [])
    {
      var payload := ClientPayload(rule, d.packet);
      if payload == [] {
        return false;
      }
      var idle := SatSub(d.checkedAt / 1_000_000, lastActivityMs);
      if rule.raknet && rule.haproxy && idle >= MAPPING_TIMEOUT_MS {
        headerSent := false;
      }
      ok := TrySendUdp(d.failing, d.client, payload);
      if ok {
        TouchNow(d.touchedAt);
        if rule.raknet && 0x80 <= payload[0] <= 0x8d {
          MarkEstablishedNow(d.touchedAt);
        }
      }
    }
  }
}
