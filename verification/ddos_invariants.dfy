/** State invariants of the flood guard over every run: escalation and permits. */
module DdosInvariants {
  import opened Net
  import opened DdosGuard
  import opened DdosGuardProofs

  // ---------- escalation ----------

  /** A counted-up address is blocked, or its block has run out; nobody counts past 25. */
  predicate Escalation(s: IpState, t: real) {
    && s.violations <= TEMP_BLOCK_AFTER_VIOLATIONS + 1
    && (s.lastViolation.None? ==> s.violations == 0)
    && (s.violations < TEMP_BLOCK_AFTER_VIOLATIONS ==> s.blockUntil.None?)
    && (s.violations >= TEMP_BLOCK_AFTER_VIOLATIONS ==>
          var end := s.lastViolation.value + BlockFor(s.violations);
          s.blockUntil == Some(end) || (s.blockUntil.None? && end <= t))
  }

  lemma ViolationEscalates(s: IpState, now: real, reason: DropReason)
    requires Escalation(s, now) && s.blockUntil.None?
    ensures Escalation(RecordViolation(s, now, reason).state, now)
  {
  }

  lemma CallsEscalate(cfg: Settings, s: IpState, size: nat, t: real, now: real)
    requires Escalation(s, t) && t <= now
    ensures Escalation(OpenOn(cfg, s, now).state, now)
    ensures Escalation(DatagramOn(cfg, s, size, now).state, now)
  {
    hide RecordViolation, Consume;
    if !Blocked(s, now) {
      var s1 := s.(blockUntil := None);
      var s2 := s1.(tcp := Consume(s1.tcp, 1.0, now).0);
      var s3 := s1.(packets := Consume(s1.packets, 1.0, now).0);
      var s4 := s3.(bytes := Consume(s3.bytes, size as real, now).0);
      ViolationEscalates(s1, now, TcpActiveConnectionLimit);
      ViolationEscalates(s2, now, TcpNewConnectionRateLimit);
      ViolationEscalates(s1, now, UdpDatagramTooLarge);
      ViolationEscalates(s3, now, UdpPacketRateLimit);
      ViolationEscalates(s4, now, UdpByteRateLimit);
    }
  }

  lemma {:induction false} RunEscalation(cfg: Settings, prune: bool, events: seq<Event>, ip: IpAddr)
    requires Monotone(events) && ip in After(cfg, prune, events)
    ensures events != [] && Escalation(After(cfg, prune, events)[ip], Clock(events))
  {
    hide OpenOn, DatagramOn, Escalation;
    var n := |events| - 1;
    var before, e := events[..n], events[n];
    var states := After(cfg, prune, before);
    if ip in states {
      RunEscalation(cfg, prune, before, ip);
      EscalationLater(states[ip], Clock(before), e.at);
      CallsEscalate(cfg, states[ip], if e.call.Datagram? then e.call.size else 0, Clock(before), e.at);
      CloseEscalates(states[ip], e.at);
    }
    EscalationFresh(cfg, e.at);
    CallsEscalate(cfg, NewState(cfg, e.at), if e.call.Datagram? then e.call.size else 0, e.at, e.at);
  }

  lemma EscalationLater(s: IpState, t: real, now: real)
    requires Escalation(s, t) && t <= now
    ensures Escalation(s, now)
  {
  }

  lemma EscalationFresh(cfg: Settings, now: real)
    ensures Escalation(NewState(cfg, now), now)
  {
  }

  lemma CloseEscalates(s: IpState, now: real)
    requires Escalation(s, now)
    ensures Escalation(CloseOn(s, now), now)
  {
  }

  /** No address ever counts more than 25 violations, and every block lasts exactly 20 or 40 seconds. */
  lemma EscalationBound(cfg: Settings, prune: bool, events: seq<Event>, ip: IpAddr)
    requires Monotone(events) && ip in After(cfg, prune, events)
    ensures var s := After(cfg, prune, events)[ip];
      && s.violations <= 25
      && (s.blockUntil.Some? ==>
            && s.violations >= 24 && s.lastViolation.Some?
            && s.blockUntil.value - s.lastViolation.value == (if s.violations == 24 then 20.0 else 40.0))
  {
    RunEscalation(cfg, prune, events, ip);
  }

  // ---------- permits ----------

  /** Permits of one address handed out and not yet released. */
  function Outstanding(cfg: Settings, prune: bool, events: seq<Event>, ip: IpAddr): int {
    if events == [] then 0
    else
      var n := |events| - 1;
      Outstanding(cfg, prune, events[..n], ip) +
      (if events[n].call == Open(ip) && Answer(cfg, prune, events, n).Admitted? then 1
       else if events[n].call == DropPermit(ip) then -1 else 0)
  }

  /** Only a permit that is outstanding is ever dropped. */
  ghost predicate PermitsOwned(cfg: Settings, prune: bool, events: seq<Event>) {
    forall i :: 0 <= i < |events| && events[i].call.DropPermit? ==>
      Outstanding(cfg, prune, events[..i], events[i].call.ip) > 0
  }

  function Active(states: States, ip: IpAddr): nat {
    if ip in states then states[ip].active else 0
  }

  lemma CallsKeepActive(cfg: Settings, s: IpState, size: nat, now: real)
    ensures OpenOn(cfg, s, now).state.active == s.active + (if OpenOn(cfg, s, now).outcome.Admitted? then 1 else 0)
    ensures OpenOn(cfg, s, now).outcome.Admitted? ==> s.active < cfg.tcpMaxActivePerIp
    ensures DatagramOn(cfg, s, size, now).state.active == s.active
  {
    hide Consume;
  }

  lemma StepActive(cfg: Settings, prune: bool, states: States, e: Event, ip: IpAddr)
    requires cfg.enabled
    requires e.call.DropPermit? ==> Active(states, e.call.ip) > 0
    ensures var (after, answer) := Step(cfg, prune, states, e);
      && Active(after, ip) == Active(states, ip) +
           (if e.call == Open(ip) && answer.Admitted? then 1 else if e.call == DropPermit(ip) then -1 else 0)
      && (e.call == Open(ip) && answer.Admitted? ==> Active(states, ip) < cfg.tcpMaxActivePerIp)
  {
    hide OpenOn, DatagramOn;
    var kept := if prune then Prune(states, e.at) else states;
    assert Active(kept, ip) == Active(states, ip);
    match e.call
    case Open(who) => CallsKeepActive(cfg, Entry(cfg, kept, who, e.at), 0, e.at);
    case Datagram(who, size) => CallsKeepActive(cfg, Entry(cfg, kept, who, e.at), size, e.at);
    case DropPermit(who) =>
  }

  /**
   Permit conservation: the connection count of every address is its number of outstanding
   permits, never above the limit, and an address with permits is never pruned.
   */
  lemma {:induction false} PermitConservation(cfg: Settings, prune: bool, events: seq<Event>, ip: IpAddr)
    requires cfg.enabled && PermitsOwned(cfg, prune, events)
    ensures Active(After(cfg, prune, events), ip) == Outstanding(cfg, prune, events, ip) <= cfg.tcpMaxActivePerIp
    ensures Outstanding(cfg, prune, events, ip) > 0 ==> ip in After(cfg, prune, events)
  {
    if events != [] {
      hide Step;
      var n := |events| - 1;
      var before, e := events[..n], events[n];
      assert forall i :: 0 <= i < n ==> events[..i] == before[..i];
      PermitConservation(cfg, prune, before, ip);
      PermitConservation(cfg, prune, before, e.call.ip);
      StepActive(cfg, prune, After(cfg, prune, before), e, ip);
    }
  }

  /** So releasing a permit finds its entry and its count never has to saturate. */
  lemma ReleaseNeverSaturates(cfg: Settings, prune: bool, events: seq<Event>, i: nat)
    requires cfg.enabled && PermitsOwned(cfg, prune, events)
    requires i < |events| && events[i].call.DropPermit?
    ensures var states := After(cfg, prune, events[..i]);
      events[i].call.ip in states && states[events[i].call.ip].active > 0
  {
    assert forall k :: 0 <= k < i ==> events[..i][..k] == events[..k];
    PermitConservation(cfg, prune, events[..i], events[i].call.ip);
  }
}
