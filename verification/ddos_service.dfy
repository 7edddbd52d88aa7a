/** The flood guard as the proxy calls it: one object over a mutable map of addresses. */
module DdosService {
  import opened Net
  import opened DdosGuard

  /** The right to one open connection; dropping it gives the slot back once. */
  datatype Permit = Permit(ip: IpAddr, released: bool)

  type Checked<T> = Result<T, DropReason>

  function ToOutcome<T>(r: Checked<T>): Outcome {
    match r case Ok(_) => Admitted case Err(reason) => Dropped(reason)
  }

  class Guard {
    const settings: Settings
    var states: States

    constructor (settings: Settings)
      ensures this.settings == settings && states == map[]
    {
      this.settings := settings;
      states := map[];
    }

    method PruneIdleStates(now: real)
      modifies this
      ensures states == Prune(old(states), now)
    {
      var pending := states.Keys;
      while pending != {}
        invariant pending <= states.Keys <= old(states).Keys
        invariant forall ip :: ip in states ==> states[ip] == old(states)[ip]
        invariant forall ip :: ip in states && ip !in pending ==> Retained(states[ip], now)
        invariant forall ip :: ip in old(states) && Retained(old(states)[ip], now) ==> ip in states
        decreases pending
      {
        var ip :| ip in pending;
        if !Retained(states[ip], now) {
          states := states - {ip};
        }
        pending := pending - {ip};
      }
    }

    /** Count a violation against an address and block it when it has too many. */
    method RecordViolation(ip: IpAddr, state: IpState, now: real, reason: DropReason) returns (actual: DropReason)
      modifies this
      ensures states == old(states)[ip := DdosGuard.RecordViolation(state, now, reason).state]
      ensures Dropped(actual) == DdosGuard.RecordViolation(state, now, reason).outcome
    {
      var violations := state.violations;
      if state.lastViolation.None? || Since(now, state.lastViolation.value) > VIOLATION_DECAY_AFTER {
        violations := 0;
      }
      violations := violations + 1;
      var updated := state.(violations := violations, lastViolation := Some(now), lastSeen := now);
      actual := reason;
      if violations >= TEMP_BLOCK_AFTER_VIOLATIONS {
        var multiplier := violations - TEMP_BLOCK_AFTER_VIOLATIONS + 1;
        var blockFor := TEMP_BLOCK_BASE * multiplier as real;
        if blockFor > TEMP_BLOCK_MAX {
          blockFor := TEMP_BLOCK_MAX;
        }
        updated := updated.(blockUntil := Some(now + blockFor));
        actual := TemporarilyBlocked;
      }
      states := states[ip := updated];
    }

    method TcpConnectionOpened(ip: IpAddr, now: real) returns (r: Checked<Permit>)
      modifies this
      ensures states == Step(settings, true, old(states), Event(now, Open(ip))).0
      ensures ToOutcome(r) == Step(settings, true, old(states), Event(now, Open(ip))).1
      ensures r.Ok? ==> r.value == Permit(ip, !settings.enabled)
    {
      if !settings.enabled {
        return Ok(Permit(ip, true));
      }
      PruneIdleStates(now);
      var state := if ip in states then states[ip] else NewState(settings, now);
      if state.blockUntil.Some? && state.blockUntil.value > now {
        states := states[ip := state.(lastSeen := now)];
        return Err(TemporarilyBlocked);
      }
      state := state.(blockUntil := None);
      if state.active >= settings.tcpMaxActivePerIp {
        var reason := RecordViolation(ip, state, now, TcpActiveConnectionLimit);
        return Err(reason);
      }
      var bucket, ok := TakeTokens(state.tcp, 1.0, now);
      state := state.(tcp := bucket);
      if !ok {
        var reason := RecordViolation(ip, state, now, TcpNewConnectionRateLimit);
        return Err(reason);
      }
      states := states[ip := state.(active := state.active + 1, lastSeen := now)];
      r := Ok(Permit(ip, false));
    }

    method UdpDatagramAllowed(ip: IpAddr, size: nat, now: real) returns (r: Checked<()>)
      modifies this
      ensures states == Step(settings, true, old(states), Event(now, Datagram(ip, size))).0
      ensures ToOutcome(r) == Step(settings, true, old(states), Event(now, Datagram(ip, size))).1
    {
      if !settings.enabled {
        return Ok(());
      }
      PruneIdleStates(now);
      var state := if ip in states then states[ip] else NewState(settings, now);
      if state.blockUntil.Some? && state.blockUntil.value > now {
        states := states[ip := state.(lastSeen := now)];
        return Err(TemporarilyBlocked);
      }
      state := state.(blockUntil := None);
      if size > settings.udpMaxDatagramBytes {
        var reason := RecordViolation(ip, state, now, UdpDatagramTooLarge);
        return Err(reason);
      }
      var bucket, ok := TakeTokens(state.packets, 1.0, now);
      state := state.(packets := bucket);
      if !ok {
        var reason := RecordViolation(ip, state, now, UdpPacketRateLimit);
        return Err(reason);
      }
      bucket, ok := TakeTokens(state.bytes, size as real, now);
      state := state.(bytes := bucket);
      if !ok {
        var reason := RecordViolation(ip, state, now, UdpByteRateLimit);
        return Err(reason);
      }
      states := states[ip := state.(lastSeen := now)];
      r := Ok(());
    }

    /** Dropping a permit releases its connection once; a released permit does nothing. */
    method DropPermit(permit: Permit, now: real) returns (after: Permit)
      modifies this
      ensures after == Permit(permit.ip, true)
      ensures permit.released ==> states == old(states)
      ensures !permit.released && settings.enabled ==>
        states == Step(settings, true, old(states), Event(now, DdosGuard.DropPermit(permit.ip))).0
    {
      if !permit.released {
        if permit.ip in states {
          var state := states[permit.ip];
          var active := if state.active > 0 then state.active - 1 else 0;
          states := states[permit.ip := state.(active := active, lastSeen := now)];
        }
      }
      after := permit.(released := true);
    }
  }

  /** Refill the bucket up to now, then take the amount if it is there. */
  method TakeTokens(bucket: TokenBucket, amount: real, now: real) returns (after: TokenBucket, ok: bool)
    ensures (after, ok) == DdosGuard.Consume(bucket, amount, now)
  {
    after := bucket;
    var elapsed := Since(now, after.lastRefill);
    if elapsed > 0.0 {
      after := after.(tokens := Min(after.tokens + elapsed * after.rate, after.burst), lastRefill := now);
    }
    if after.tokens < amount {
      return after, false;
    }
    after := after.(tokens := after.tokens - amount);
    ok := true;
  }
}
