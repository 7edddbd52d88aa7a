/**
 The forgettable settings are exact. Whenever a meter is not forgettable, an address can run up a debt
 deeper than what comes back before it is forgotten, be forgotten, and do it again; after enough visits
 it has beaten the window bound and got an answer that an unpruned map would not give.
 */
module DdosExactness {
  import opened Net
  import opened DdosGuard
  import opened DdosMeters
  import opened DdosGuardProofs
  import opened DdosPruning
  import opened DdosWindow
  import opened DdosRuns

  // ---------- one unit at a time: connections and packets ----------

  /** A meter that counts calls, each open to the address. */
  predicate CountsCalls(m: Meter, cfg: Settings) { m.UdpPackets? || (m.TcpConnections? && cfg.tcpMaxActivePerIp >= 1) }

  lemma TakeOne(m: Meter, cfg: Settings, run: seq<Event>, ip: IpAddr, t: real) returns (all: seq<Event>)
    requires Sane(cfg) && cfg.enabled && CountsCalls(m, cfg) && Ready(cfg, run, ip, t) && 1.0 <= Met(m, cfg, run, ip, t)
    ensures Touched(cfg, all, ip, t)
    ensures Met(m, cfg, all, ip, t) == Met(m, cfg, run, ip, t) - 1.0
    ensures Total(m, ip, cfg, all) == Total(m, ip, cfg, run) + 1.0
  {
    hide Touched, Ready, Met, Total;
    if m.UdpPackets? {
      MetInRange(UdpBytes, cfg, run, ip, t);
      all := Send(cfg, run, ip, t, 0);
    } else {
      all := Connect(cfg, run, ip, t);
    }
  }

  lemma {:induction false} TakeMany(m: Meter, cfg: Settings, run: seq<Event>, ip: IpAddr, t: real, n: nat)
    returns (all: seq<Event>)
    requires Sane(cfg) && cfg.enabled && CountsCalls(m, cfg) && Ready(cfg, run, ip, t) && 1 <= n
    requires n as real <= Met(m, cfg, run, ip, t)
    ensures Touched(cfg, all, ip, t)
    ensures Met(m, cfg, all, ip, t) == Met(m, cfg, run, ip, t) - n as real
    ensures Total(m, ip, cfg, all) == Total(m, ip, cfg, run) + n as real
    decreases n
  {
    hide Touched, Ready, Met, Total;
    all := TakeOne(m, cfg, run, ip, t);
    if n > 1 {
      TouchedIsReady(cfg, all, ip, t);
      all := TakeMany(m, cfg, all, ip, t, n - 1);
    }
  }

  /** A visit leaves a debt: what it admitted, less what its time earned. */
  ghost predicate Owing(m: Meter, cfg: Settings, ip: IpAddr, run: seq<Event>, t: real, all: seq<Event>, u: real,
                        depth: real) {
    t <= u && Touched(cfg, all, ip, u) &&
      Total(m, ip, cfg, all) == Total(m, ip, cfg, run) + depth + Rate(m, cfg) * (u - t)
  }

  /** How deep a visit by calls gets: to the bottom, or to one call if nothing ever comes back. */
  function CallDepth(m: Meter, cfg: Settings): real { if Rate(m, cfg) > 0.0 then Burst(m, cfg) else 1.0 }

  /** Empty the bucket of whole calls, wait for the fraction to become one more, and take that. */
  lemma VisitByCalls(m: Meter, cfg: Settings, run: seq<Event>, ip: IpAddr, t: real) returns (all: seq<Event>, u: real)
    requires Sane(cfg) && cfg.enabled && CountsCalls(m, cfg) && 1.0 <= Burst(m, cfg)
    requires Ready(cfg, run, ip, t) && Met(m, cfg, run, ip, t) == Burst(m, cfg)
    ensures Owing(m, cfg, ip, run, t, all, u, CallDepth(m, cfg))
  {
    hide Touched, Ready, Met, Total;
    var rate, burst := Rate(m, cfg), Burst(m, cfg);
    u := t;
    if rate <= 0.0 {
      all := TakeOne(m, cfg, run, ip, t);
    } else {
      var whole := burst.Floor;
      all := TakeMany(m, cfg, run, ip, t, whole);
      var rest := burst - whole as real;
      if rest > 0.0 {
        var pause := (1.0 - rest) / rate;
        Quotient(1.0 - rest, rate, pause);
        var waited := Wait(cfg, all, ip, t, pause);
        u := t + pause;
        assert Met(m, cfg, waited, ip, u) == Min(rest + rate * pause, burst);
        all := TakeOne(m, cfg, waited, ip, u);
      }
    }
  }

  lemma Quotient(a: real, b: real, q: real)
    requires 0.0 <= a && 0.0 < b && q == a / b
    ensures b * q == a && 0.0 <= q
  {
  }

  // ---------- datagrams ----------

  lemma {:induction false} SendMany(cfg: Settings, run: seq<Event>, ip: IpAddr, t: real, size: nat, n: nat)
    returns (all: seq<Event>)
    requires Sane(cfg) && cfg.enabled && Ready(cfg, run, ip, t) && 1 <= n && size <= cfg.udpMaxDatagramBytes
    requires n as real <= Met(UdpPackets, cfg, run, ip, t) && size as real * n as real <= Met(UdpBytes, cfg, run, ip, t)
    ensures Touched(cfg, all, ip, t)
    ensures Met(UdpPackets, cfg, all, ip, t) == Met(UdpPackets, cfg, run, ip, t) - n as real
    ensures Met(UdpBytes, cfg, all, ip, t) == Met(UdpBytes, cfg, run, ip, t) - size as real * n as real
    ensures Total(UdpBytes, ip, cfg, all) == Total(UdpBytes, ip, cfg, run) + size as real * n as real
    decreases n
  {
    hide Touched, Ready, Met, Total;
    assert size as real * n as real == size as real + size as real * (n - 1) as real;
    assert 0.0 <= size as real * (n - 1) as real;
    all := Send(cfg, run, ip, t, size);
    if n > 1 {
      TouchedIsReady(cfg, all, ip, t);
      all := SendMany(cfg, all, ip, t, size, n - 1);
    }
  }

  lemma Ordered(a: int, b: int)
    requires a as real < b as real
    ensures a < b
  {
  }

  /** The least whole number not below a real. */
  function Ceiling(x: real): (n: int)
    ensures x <= n as real < x + 1.0
  {
    if x == x.Floor as real then x.Floor else x.Floor + 1
  }

  lemma CeilingWithin(x: real, n: int)
    requires x <= n as real
    ensures Ceiling(x) <= n
  {
    hide Ceiling;
    Ordered(Ceiling(x), n + 1);
  }

  /** How long to wait, at least a given time, for a whole number of bytes. */
  lemma WholePause(x: real, r: real, least: real, largest: nat) returns (size: nat, pause: real)
    requires 0.0 <= x && 0.0 < r && 0.0 <= least && x + r * least <= largest as real
    ensures size <= largest && least <= pause && x + r * pause == size as real
  {
    hide Ceiling;
    var goal := x + r * least;
    assert 0.0 <= r * least;
    CeilingWithin(goal, largest);
    var n := Ceiling(goal);
    Ordered(-1, n);
    size := n;
    pause := (size as real - x) / r;
    Quotient(size as real - x, r, pause);
    NotMore(r, least, pause);
  }

  /** With a packet at hand, or to be had by waiting, and few bytes left: take them all. */
  lemma Finish(cfg: Settings, run: seq<Event>, ip: IpAddr, t: real, least: real) returns (all: seq<Event>, u: real)
    requires Sane(cfg) && cfg.enabled && Touched(cfg, run, ip, t) && 0.0 <= least && 0.0 < cfg.byteRate
    requires 1.0 <= cfg.packetBurst
    requires Met(UdpBytes, cfg, run, ip, t) + cfg.byteRate * least <= LargestDatagram(cfg) as real
    requires 1.0 <= Met(UdpPackets, cfg, run, ip, t) + cfg.packetRate * least
    ensures Owing(UdpBytes, cfg, ip, run, t, all, u, Met(UdpBytes, cfg, run, ip, t))
  {
    hide Touched, Ready, Met, Total, LargestDatagram;
    var x, y := Met(UdpBytes, cfg, run, ip, t), Met(UdpPackets, cfg, run, ip, t);
    assert x >= 0.0 by { TouchedIsReady(cfg, run, ip, t); MetInRange(UdpBytes, cfg, run, ip, t); }
    LargestFits(cfg);
    var size, pause := WholePause(x, cfg.byteRate, least, LargestDatagram(cfg));
    LongerEarnsMore(cfg.packetRate, least, pause);
    var waited := Wait(cfg, run, ip, t, pause);
    u := t + pause;
    assert Met(UdpBytes, cfg, waited, ip, u) == Min(x + Rate(UdpBytes, cfg) * pause, cfg.byteBurst);
    assert Met(UdpPackets, cfg, waited, ip, u) == Min(y + Rate(UdpPackets, cfg) * pause, cfg.packetBurst);
    all := Send(cfg, waited, ip, u, size);
    assert u - t == pause;
  }

  lemma LongerEarnsMore(p: real, least: real, pause: real)
    requires 0.0 <= p && least <= pause
    ensures p * least <= p * pause
  {
    assert 0.0 <= p * (pause - least);
  }

  /** Packets come back faster than their bytes: datagram by datagram the bucket empties to the bottom. */
  lemma {:induction false} Trickle(cfg: Settings, run: seq<Event>, ip: IpAddr, t: real, gap: real, back: real, n: nat)
    returns (all: seq<Event>, u: real)
    requires Sane(cfg) && cfg.enabled && Touched(cfg, run, ip, t) && 0.0 < cfg.byteRate && 1.0 <= cfg.packetBurst
    requires 0.0 <= gap && cfg.packetRate * gap == 1.0 && cfg.byteRate * gap == back < LargestDatagram(cfg) as real
    requires Met(UdpBytes, cfg, run, ip, t) + LargestDatagram(cfg) as real <= cfg.byteBurst
    requires Met(UdpBytes, cfg, run, ip, t) + back <=
      LargestDatagram(cfg) as real + n as real * (LargestDatagram(cfg) as real - back)
    ensures Owing(UdpBytes, cfg, ip, run, t, all, u, Met(UdpBytes, cfg, run, ip, t))
    decreases n
  {
    hide Touched, Ready, Met, Total, LargestDatagram;
    var x, largest := Met(UdpBytes, cfg, run, ip, t), LargestDatagram(cfg);
    assert 0.0 <= Met(UdpPackets, cfg, run, ip, t) by {
      TouchedIsReady(cfg, run, ip, t);
      MetInRange(UdpPackets, cfg, run, ip, t);
    }
    if x + back <= largest as real {
      all, u := Finish(cfg, run, ip, t, gap);
    } else {
      LargestFits(cfg);
      var waited := Wait(cfg, run, ip, t, gap);
      var v := t + gap;
      assert Met(UdpBytes, cfg, waited, ip, v) == Min(x + Rate(UdpBytes, cfg) * gap, cfg.byteBurst) == x + back;
      assert Met(UdpPackets, cfg, waited, ip, v) ==
        Min(Met(UdpPackets, cfg, run, ip, t) + Rate(UdpPackets, cfg) * gap, cfg.packetBurst);
      var sent := Send(cfg, waited, ip, v, largest);
      assert n as real * (largest as real - back) ==
        (n - 1) as real * (largest as real - back) + (largest as real - back);
      all, u := Trickle(cfg, sent, ip, v, gap, back, n - 1);
      assert cfg.byteRate * (u - t) == cfg.byteRate * gap + cfg.byteRate * (u - v);
    }
  }

  lemma LargestFits(cfg: Settings)
    requires Sane(cfg)
    ensures 0 <= LargestDatagram(cfg) <= cfg.udpMaxDatagramBytes && LargestDatagram(cfg) as real <= cfg.byteBurst
  {
  }

  // ---------- a visit that owes bytes ----------

  function Largest(cfg: Settings): real { LargestDatagram(cfg) as real }

  function WholePackets(cfg: Settings): real { cfg.packetBurst.Floor as real }

  /** How long the packet bucket's fraction takes to become one more packet. */
  function NextPacket(cfg: Settings): real
    requires cfg.packetRate > 0.0
  {
    (WholePackets(cfg) + 1.0 - cfg.packetBurst) / cfg.packetRate
  }

  /** How deep a visit by datagrams gets. */
  function ByteDepth(cfg: Settings): real {
    if cfg.byteRate <= 0.0 then 1.0
    else if Largest(cfg) * cfg.packetRate > cfg.byteRate then cfg.byteBurst
    else if Largest(cfg) * WholePackets(cfg) > Forgiven(UdpBytes, cfg) then
      if Largest(cfg) * WholePackets(cfg) <= cfg.byteBurst.Floor as real then Largest(cfg) * WholePackets(cfg)
      else cfg.byteBurst
    else if
      && cfg.packetRate > 0.0
      && Largest(cfg) < cfg.byteBurst - Largest(cfg) * WholePackets(cfg) + cfg.byteRate * NextPacket(cfg)
    then
      Largest(cfg) * (WholePackets(cfg) + 1.0) - cfg.byteRate * NextPacket(cfg)
    else cfg.byteBurst
  }

  /** The meter of bytes is not forgettable: datagrams pass, and the packet bucket does not hold them back. */
  predicate BytesExposed(cfg: Settings) {
    cfg.packetBurst >= 1.0 && cfg.byteBurst > Forgiven(UdpBytes, cfg) && !PacketsBoundBytes(cfg)
  }

  lemma LargestIsPositive(cfg: Settings)
    requires Sane(cfg) && BytesExposed(cfg)
    ensures 1 <= LargestDatagram(cfg)
  {
    if LargestDatagram(cfg) <= 0 {
      LargestFits(cfg);
      NothingToSend(cfg);
    }
  }

  lemma NothingToSend(cfg: Settings)
    requires Sane(cfg) && LargestDatagram(cfg) == 0
    ensures PacketsBoundBytes(cfg)
  {
    var whole, forgiven := cfg.packetBurst.Floor as real, Forgiven(UdpBytes, cfg);
    assert 0.0 <= cfg.packetRate * forgiven;
    NotNegative(cfg.byteRate, whole + 1.0 - cfg.packetBurst);
  }

  lemma NotNegative(a: real, b: real)
    requires 0.0 <= a && 0.0 <= b
    ensures 0.0 <= a * b
  {
  }

  lemma Archimedes(goal: real, step: real) returns (n: nat)
    requires 0.0 < step
    ensures goal < n as real * step
  {
    if goal < 0.0 {
      n := 0;
    } else {
      var q := goal / step;
      Quotient(goal, step, q);
      n := q.Floor + 1;
      assert 0.0 < step * (n as real - q);
      assert step * n as real == step * q + step * (n as real - q);
    }
  }

  /** A datagram and then a visit that owes some more. */
  lemma SentFirst(cfg: Settings, ip: IpAddr, run: seq<Event>, t: real, sent: seq<Event>, bytes: real, all: seq<Event>,
                  u: real, depth: real)
    requires Total(UdpBytes, ip, cfg, sent) == Total(UdpBytes, ip, cfg, run) + bytes
    requires Owing(UdpBytes, cfg, ip, sent, t, all, u, depth)
    ensures Owing(UdpBytes, cfg, ip, run, t, all, u, bytes + depth)
  {
  }

  /** Met as new. */
  ghost predicate New(cfg: Settings, run: seq<Event>, ip: IpAddr, t: real) {
    Ready(cfg, run, ip, t) && forall m :: Met(m, cfg, run, ip, t) == Burst(m, cfg)
  }

  lemma VisitByTrickle(cfg: Settings, run: seq<Event>, ip: IpAddr, t: real) returns (all: seq<Event>, u: real)
    requires Sane(cfg) && cfg.enabled && New(cfg, run, ip, t) && cfg.packetBurst >= 1.0 && 0.0 < cfg.byteRate
    requires Largest(cfg) * cfg.packetRate > cfg.byteRate
    ensures Owing(UdpBytes, cfg, ip, run, t, all, u, cfg.byteBurst)
  {
    hide Touched, Ready, Met, Total, LargestDatagram, Owing;
    LargestFits(cfg);
    assert Met(UdpPackets, cfg, run, ip, t) == cfg.packetBurst && Met(UdpBytes, cfg, run, ip, t) == cfg.byteBurst by {
      assert Met(UdpPackets, cfg, run, ip, t) == Burst(UdpPackets, cfg);
      assert Met(UdpBytes, cfg, run, ip, t) == Burst(UdpBytes, cfg);
    }
    var sent := Send(cfg, run, ip, t, LargestDatagram(cfg));
    var gap, back := Gap(Largest(cfg), cfg.packetRate, cfg.byteRate);
    var n := Archimedes(cfg.byteBurst, Largest(cfg) - back);
    all, u := Trickle(cfg, sent, ip, t, gap, back, n);
    SentFirst(cfg, ip, run, t, sent, Largest(cfg), all, u, cfg.byteBurst - Largest(cfg));
  }

  lemma Gap(largest: real, p: real, r: real) returns (gap: real, back: real)
    requires 0.0 <= largest && 0.0 <= p && 0.0 < r && largest * p > r
    ensures 0.0 <= gap && p * gap == 1.0 && r * gap == back < largest && 0.0 <= back
  {
    assert p > 0.0;
    gap := 1.0 / p;
    Quotient(1.0, p, gap);
    back := r * gap;
    assert p * back == r * (p * gap) == r;
    assert p * (largest - back) > 0.0;
    assert 0.0 <= r * gap;
  }

  lemma VisitByBurst(cfg: Settings, run: seq<Event>, ip: IpAddr, t: real) returns (all: seq<Event>, u: real)
    requires Sane(cfg) && cfg.enabled && New(cfg, run, ip, t) && cfg.packetBurst >= 1.0
    requires Largest(cfg) * WholePackets(cfg) <= cfg.byteBurst.Floor as real
    ensures u == t && Owing(UdpBytes, cfg, ip, run, t, all, u, Largest(cfg) * WholePackets(cfg))
    ensures Met(UdpPackets, cfg, all, ip, u) == cfg.packetBurst - WholePackets(cfg)
    ensures Met(UdpBytes, cfg, all, ip, u) == cfg.byteBurst - Largest(cfg) * WholePackets(cfg)
  {
    hide Touched, Ready, Met, Total, LargestDatagram;
    LargestFits(cfg);
    assert Met(UdpPackets, cfg, run, ip, t) == Burst(UdpPackets, cfg);
    assert Met(UdpBytes, cfg, run, ip, t) == Burst(UdpBytes, cfg);
    u := t;
    all := SendMany(cfg, run, ip, t, LargestDatagram(cfg), cfg.packetBurst.Floor);
  }

  /** Full datagrams while they fit, and the rest of the bytes with one more packet. */
  lemma VisitToBottom(cfg: Settings, run: seq<Event>, ip: IpAddr, t: real) returns (all: seq<Event>, u: real)
    requires Sane(cfg) && cfg.enabled && New(cfg, run, ip, t) && cfg.packetBurst >= 1.0 && 0.0 < cfg.byteRate
    requires 1 <= LargestDatagram(cfg) && Largest(cfg) * WholePackets(cfg) > cfg.byteBurst.Floor as real
    ensures Owing(UdpBytes, cfg, ip, run, t, all, u, cfg.byteBurst)
  {
    hide Touched, Ready, Met, Total, LargestDatagram, Owing;
    LargestFits(cfg);
    assert Met(UdpPackets, cfg, run, ip, t) == Burst(UdpPackets, cfg);
    assert Met(UdpBytes, cfg, run, ip, t) == Burst(UdpBytes, cfg);
    var n := FullDatagrams(LargestDatagram(cfg), cfg.packetBurst.Floor, cfg.byteBurst);
    var sent := SendMany(cfg, run, ip, t, LargestDatagram(cfg), n);
    all, u := Finish(cfg, sent, ip, t, 0.0);
    SentFirst(cfg, ip, run, t, sent, Largest(cfg) * n as real, all, u, cfg.byteBurst - Largest(cfg) * n as real);
  }

  lemma FullDatagrams(largest: nat, packets: nat, burst: real) returns (n: nat)
    requires 1 <= largest && largest as real <= burst && largest as real * packets as real > burst.Floor as real
    ensures 1 <= n && n + 1 <= packets
    ensures largest as real * n as real <= burst && burst - largest as real * n as real <= largest as real
  {
    var bytes := burst.Floor;
    Ordered(largest - 1, bytes);
    Division(bytes, largest);
    n := bytes / largest;
    assert (largest * packets) as real > bytes as real;
    Ordered(bytes, largest * packets);
    Fewer(largest, n, packets, bytes);
    assert (largest * n) as real == largest as real * n as real;
    assert (bytes - largest * n) as real <= (largest - 1) as real;
  }

  lemma Division(a: nat, b: nat)
    requires 1 <= b <= a
    ensures 1 <= a / b && b * (a / b) <= a && a - b * (a / b) <= b - 1
  {
    assert a == b * (a / b) + a % b;
  }

  lemma Fewer(largest: nat, n: nat, packets: nat, bytes: nat)
    requires largest * n <= bytes < largest * packets
    ensures n < packets
  {
    assert largest * (packets - n) > 0;
  }

  /** A full packet bucket of largest datagrams, and one more when its packet has come back. */
  lemma VisitOneMore(cfg: Settings, run: seq<Event>, ip: IpAddr, t: real) returns (all: seq<Event>, u: real)
    requires Sane(cfg) && cfg.enabled && New(cfg, run, ip, t) && cfg.packetBurst >= 1.0 && 0.0 < cfg.byteRate
    requires 0.0 < cfg.packetRate
    requires Largest(cfg) * WholePackets(cfg) <= cfg.byteBurst.Floor as real
    requires cfg.byteRate * NextPacket(cfg) <= Largest(cfg) * WholePackets(cfg)
    ensures Owing(UdpBytes, cfg, ip, run, t, all, u,
                  if Largest(cfg) < cfg.byteBurst - Largest(cfg) * WholePackets(cfg) + cfg.byteRate * NextPacket(cfg)
                  then Largest(cfg) * (WholePackets(cfg) + 1.0) - cfg.byteRate * NextPacket(cfg) else cfg.byteBurst)
  {
    hide Touched, Ready, Met, Total, LargestDatagram, Largest, Owing;
    var sent, _ := VisitByBurst(cfg, run, ip, t);
    var bytes, gap := Largest(cfg) * WholePackets(cfg), NextPacket(cfg);
    assert Touched(cfg, sent, ip, t) && Total(UdpBytes, ip, cfg, sent) == Total(UdpBytes, ip, cfg, run) + bytes by {
      OwingNow(UdpBytes, cfg, ip, run, t, sent, bytes);
    }
    Quotient(WholePackets(cfg) + 1.0 - cfg.packetBurst, cfg.packetRate, gap);
    if Largest(cfg) < cfg.byteBurst - bytes + cfg.byteRate * gap {
      all, u := SendOneMore(cfg, sent, ip, t, gap, cfg.byteRate * gap);
      SentFirst(cfg, ip, run, t, sent, bytes, all, u, Largest(cfg) - cfg.byteRate * gap);
      assert Largest(cfg) * (WholePackets(cfg) + 1.0) == bytes + Largest(cfg);
    } else {
      AsLargest(cfg);
      all, u := Finish(cfg, sent, ip, t, gap);
      SentFirst(cfg, ip, run, t, sent, bytes, all, u, cfg.byteBurst - bytes);
    }
  }

  lemma AsLargest(cfg: Settings)
    ensures Largest(cfg) == LargestDatagram(cfg) as real
  {
  }

  lemma OwingNow(m: Meter, cfg: Settings, ip: IpAddr, run: seq<Event>, t: real, all: seq<Event>, depth: real)
    requires Owing(m, cfg, ip, run, t, all, t, depth)
    ensures Touched(cfg, all, ip, t) && Total(m, ip, cfg, all) == Total(m, ip, cfg, run) + depth
  {
  }

  lemma SendOneMore(cfg: Settings, run: seq<Event>, ip: IpAddr, t: real, gap: real, back: real)
    returns (all: seq<Event>, u: real)
    requires Sane(cfg) && cfg.enabled && Touched(cfg, run, ip, t) && 0.0 <= gap && back == cfg.byteRate * gap
    requires cfg.packetBurst >= 1.0
    requires Largest(cfg) <= Met(UdpBytes, cfg, run, ip, t) + back <= cfg.byteBurst
    requires 1.0 <= Met(UdpPackets, cfg, run, ip, t) + cfg.packetRate * gap
    ensures Owing(UdpBytes, cfg, ip, run, t, all, u, Largest(cfg) - back)
  {
    hide Touched, Ready, Met, Total, LargestDatagram;
    LargestFits(cfg);
    var waited := Wait(cfg, run, ip, t, gap);
    u := t + gap;
    assert Met(UdpBytes, cfg, waited, ip, u) ==
      Min(Met(UdpBytes, cfg, run, ip, t) + Rate(UdpBytes, cfg) * gap, cfg.byteBurst);
    assert Met(UdpPackets, cfg, waited, ip, u) ==
      Min(Met(UdpPackets, cfg, run, ip, t) + Rate(UdpPackets, cfg) * gap, cfg.packetBurst);
    all := Send(cfg, waited, ip, u, LargestDatagram(cfg));
    assert u - t == gap;
  }

  // ---------- every meter that is not forgettable ----------

  function Depth(m: Meter, cfg: Settings): real { if m.UdpBytes? then ByteDepth(cfg) else CallDepth(m, cfg) }

  lemma ExposedBytes(cfg: Settings)
    requires !Forgettable(UdpBytes, cfg)
    ensures BytesExposed(cfg)
  {
  }

  lemma WholeCalls(m: Meter, cfg: Settings)
    requires !m.UdpBytes? && !Forgettable(m, cfg)
    ensures CountsCalls(m, cfg) && 1.0 <= Burst(m, cfg) && Burst(m, cfg) > Forgiven(m, cfg)
  {
  }

  /** In the last case the packet that comes back in time tips the balance. */
  lemma NextPacketTips(cfg: Settings)
    requires Sane(cfg) && BytesExposed(cfg) && 0.0 < cfg.byteRate
    requires Largest(cfg) * cfg.packetRate <= cfg.byteRate
    requires Largest(cfg) * WholePackets(cfg) <= Forgiven(UdpBytes, cfg)
    ensures 0.0 < cfg.packetRate
    ensures Largest(cfg) * (WholePackets(cfg) + 1.0) - cfg.byteRate * NextPacket(cfg) > Forgiven(UdpBytes, cfg)
    ensures cfg.byteRate * NextPacket(cfg) <= Largest(cfg) * WholePackets(cfg)
  {
    hide LargestDatagram, Forgiven;
    LargestFits(cfg);
    var gap := Tips(Largest(cfg), WholePackets(cfg), cfg.packetBurst, cfg.packetRate, cfg.byteRate,
      Forgiven(UdpBytes, cfg));
  }

  lemma Tips(largest: real, whole: real, burst: real, p: real, r: real, forgiven: real) returns (gap: real)
    requires 0.0 <= largest && 1.0 <= whole && burst < whole + 1.0 && 0.0 <= p && 0.0 < r
    requires largest * whole <= forgiven && p * (largest * (whole + 1.0) - forgiven) > r * (whole + 1.0 - burst)
    ensures 0.0 < p && gap == (whole + 1.0 - burst) / p
    ensures largest * (whole + 1.0) - r * gap > forgiven && r * gap <= largest * whole
  {
    var more, missing := largest * (whole + 1.0), whole + 1.0 - burst;
    NotNegative(r, missing);
    Positive(p, more - forgiven);
    gap := missing / p;
    Quotient(missing, p, gap);
    Swap(p, r, gap);
    StrictlyLess(p, r * gap, more - forgiven);
    OneOrMore(largest, whole);
  }

  lemma Positive(p: real, a: real)
    requires 0.0 <= p && p * a > 0.0
    ensures 0.0 < p
  {
  }

  lemma Swap(p: real, r: real, gap: real)
    ensures p * (r * gap) == r * (p * gap)
  {
  }

  lemma StrictlyLess(p: real, a: real, b: real)
    requires 0.0 < p && p * a < p * b
    ensures a < b
  {
    assert p * (b - a) > 0.0;
  }

  lemma OneOrMore(a: real, n: real)
    requires 0.0 <= a && 1.0 <= n
    ensures a <= a * n && a * (n + 1.0) == a * n + a
  {
    NotNegative(a, n - 1.0);
  }

  lemma WholeBelow(x: real, n: int)
    requires n as real < x
    ensures n <= x.Floor
  {
    Ordered(n, x.Floor + 1);
  }

  lemma BurstFits(cfg: Settings)
    requires Sane(cfg) && Largest(cfg) * WholePackets(cfg) < cfg.byteBurst
    ensures Largest(cfg) * WholePackets(cfg) <= cfg.byteBurst.Floor as real
  {
    var n := LargestDatagram(cfg) * cfg.packetBurst.Floor;
    assert n as real == Largest(cfg) * WholePackets(cfg);
    WholeBelow(cfg.byteBurst, n);
  }

  lemma VisitByBytes(cfg: Settings, run: seq<Event>, ip: IpAddr, t: real) returns (all: seq<Event>, u: real)
    requires Sane(cfg) && cfg.enabled && New(cfg, run, ip, t) && BytesExposed(cfg)
    ensures Owing(UdpBytes, cfg, ip, run, t, all, u, ByteDepth(cfg))
    ensures ByteDepth(cfg) > Forgiven(UdpBytes, cfg)
  {
    hide Touched, Ready, Met, Total, LargestDatagram, PacketsBoundBytes, Largest, WholePackets, Owing;
    LargestIsPositive(cfg);
    if cfg.byteRate <= 0.0 {
      all, u := OneByte(cfg, run, ip, t);
      assert ByteDepth(cfg) == 1.0;
    } else if Largest(cfg) * cfg.packetRate > cfg.byteRate {
      all, u := VisitByTrickle(cfg, run, ip, t);
      assert ByteDepth(cfg) == cfg.byteBurst;
    } else if Largest(cfg) * WholePackets(cfg) > Forgiven(UdpBytes, cfg) {
      if Largest(cfg) * WholePackets(cfg) <= cfg.byteBurst.Floor as real {
        all, u := VisitByBurst(cfg, run, ip, t);
        assert ByteDepth(cfg) == Largest(cfg) * WholePackets(cfg);
      } else {
        all, u := VisitToBottom(cfg, run, ip, t);
        assert ByteDepth(cfg) == cfg.byteBurst;
      }
    } else {
      NextPacketTips(cfg);
      BurstFits(cfg);
      all, u := VisitOneMore(cfg, run, ip, t);
    }
  }

  lemma OneByte(cfg: Settings, run: seq<Event>, ip: IpAddr, t: real) returns (all: seq<Event>, u: real)
    requires Sane(cfg) && cfg.enabled && New(cfg, run, ip, t) && cfg.packetBurst >= 1.0 && 1 <= LargestDatagram(cfg)
    ensures Owing(UdpBytes, cfg, ip, run, t, all, u, 1.0)
  {
    hide Touched, Ready, Met, Total, LargestDatagram;
    LargestFits(cfg);
    assert Met(UdpPackets, cfg, run, ip, t) == Burst(UdpPackets, cfg);
    assert Met(UdpBytes, cfg, run, ip, t) == Burst(UdpBytes, cfg);
    u := t;
    all := Send(cfg, run, ip, t, 1);
  }

  /** Whoever is met as new can owe more than will be forgiven. */
  lemma Visit(m: Meter, cfg: Settings, run: seq<Event>, ip: IpAddr, t: real) returns (all: seq<Event>, u: real)
    requires Sane(cfg) && cfg.enabled && New(cfg, run, ip, t) && !Forgettable(m, cfg)
    ensures Owing(m, cfg, ip, run, t, all, u, Depth(m, cfg)) && Depth(m, cfg) > Forgiven(m, cfg)
  {
    hide Touched, Ready, Met, Total, Owing, ByteDepth, BytesExposed;
    if m.UdpBytes? {
      ExposedBytes(cfg);
      all, u := VisitByBytes(cfg, run, ip, t);
    } else {
      WholeCalls(m, cfg);
      assert Met(m, cfg, run, ip, t) == Burst(m, cfg);
      all, u := VisitByCalls(m, cfg, run, ip, t);
    }
  }

  /** n visits, each but the first after being forgotten. */
  lemma {:induction false} Visits(m: Meter, cfg: Settings, ip: IpAddr, n: nat) returns (all: seq<Event>, u: real)
    requires Sane(cfg) && cfg.enabled && !Forgettable(m, cfg) && n >= 1
    ensures 0.0 <= u && Touched(cfg, all, ip, u) && Depth(m, cfg) > Forgiven(m, cfg)
    ensures Total(m, ip, cfg, all) == Rate(m, cfg) * u + Forgiven(m, cfg) +
      n as real * (Depth(m, cfg) - Forgiven(m, cfg))
  {
    hide Touched, Ready, Met, Depth, Forgettable, Rate, Total, Sane;
    if n == 1 {
      Unknown(cfg, ip, 0.0);
      all, u := Visit(m, cfg, [], ip, 0.0);
      NothingYet(m, ip, cfg);
    } else {
      var before, t := Visits(m, cfg, ip, n - 1);
      Forgotten(cfg, before, ip, t);
      all, u := Visit(m, cfg, before, ip, t + IDLE_STATE_RETENTION);
      VisitAdds(Rate(m, cfg), Forgiven(m, cfg), Depth(m, cfg), n, t, u);
    }
  }

  lemma NothingYet(m: Meter, ip: IpAddr, cfg: Settings)
    ensures Total(m, ip, cfg, []) == 0.0
  {
  }

  lemma VisitAdds(rate: real, forgiven: real, depth: real, n: nat, t: real, u: real)
    requires n >= 1 && forgiven == IDLE_STATE_RETENTION * rate
    ensures rate * t + forgiven + (n - 1) as real * (depth - forgiven) + depth + rate * (u - (t + IDLE_STATE_RETENTION))
            == rate * u + forgiven + n as real * (depth - forgiven)
  {
    assert rate * (u - (t + IDLE_STATE_RETENTION)) == rate * u - rate * t - IDLE_STATE_RETENTION * rate;
    assert n as real * (depth - forgiven) == (n - 1) as real * (depth - forgiven) + (depth - forgiven);
  }

  lemma TouchedTimes(cfg: Settings, run: seq<Event>, ip: IpAddr, u: real)
    requires Touched(cfg, run, ip, u)
    ensures 0.0 <= u && Monotone(run) && forall e :: e in run ==> 0.0 <= e.at <= u
  {
    hide After;
  }

  /** The run that beats the bound. */
  lemma BeatsBound(m: Meter, cfg: Settings, ip: IpAddr) returns (run: seq<Event>, u: real)
    requires Sane(cfg) && cfg.enabled && !Forgettable(m, cfg)
    ensures 0.0 <= u && Monotone(run)
    ensures AdmittedBetween(m, ip, cfg, true, run, 0.0, u) > Burst(m, cfg) + Earned(m, cfg, 0.0, u)
  {
    hide Touched, Forgettable, Total, AdmittedBetween, Depth;
    var once, _ := Visits(m, cfg, ip, 1);
    var n := Archimedes(Burst(m, cfg), Depth(m, cfg) - Forgiven(m, cfg));
    ForgivenNotNegative(m, cfg);
    BurstNotNegative(m, cfg);
    run, u := Visits(m, cfg, ip, n);
    TouchedTimes(cfg, run, ip, u);
    TotalIsBetween(m, ip, cfg, run, 0.0, u);
  }

  ghost predicate Bounded(m: Meter, cfg: Settings, ip: IpAddr, events: seq<Event>, t1: real, t2: real) {
    Monotone(events) && t1 <= t2 ==>
      AdmittedBetween(m, ip, cfg, true, events, t1, t2) <= Burst(m, cfg) + Earned(m, cfg, t1, t2)
  }

  /** The window bound holds of every pruned run exactly under forgettable settings: any meter, any burst. */
  lemma WindowBoundIffForgettable(m: Meter, cfg: Settings, ip: IpAddr)
    requires Sane(cfg) && cfg.enabled
    ensures Forgettable(m, cfg) <==> forall events, t1, t2 :: Bounded(m, cfg, ip, events, t1, t2)
  {
    hide Forgettable, AdmittedBetween, Earned;
    if Forgettable(m, cfg) {
      forall events, t1, t2 ensures Bounded(m, cfg, ip, events, t1, t2) {
        if Monotone(events) && t1 <= t2 {
          WindowBound(m, ip, cfg, true, events, t1, t2);
        }
      }
    } else {
      var run, u := BeatsBound(m, cfg, ip);
      assert !Bounded(m, cfg, ip, run, 0.0, u);
    }
  }

  lemma {:induction false} SameAnswersSameTraffic(m: Meter, ip: IpAddr, cfg: Settings, events: seq<Event>, t1: real,
                                                  t2: real)
    requires forall i: nat :: Invisible(cfg, events, i)
    requires Monotone(events)
    ensures AdmittedBetween(m, ip, cfg, true, events, t1, t2) == AdmittedBetween(m, ip, cfg, false, events, t1, t2)
  {
    hide Step;
    if events != [] {
      var n := |events| - 1;
      forall i: nat ensures Invisible(cfg, events[..n], i) {
        if i < n {
          assert events[..n][..i] == events[..i];
          assert Invisible(cfg, events, i);
        }
      }
      SameAnswersSameTraffic(m, ip, cfg, events[..n], t1, t2);
      assert Invisible(cfg, events, n);
    }
  }

  ghost predicate Invisible(cfg: Settings, events: seq<Event>, i: nat) {
    Monotone(events) && i < |events| ==> Answer(cfg, true, events, i) == Answer(cfg, false, events, i)
  }

  lemma DisabledIsInvisible(cfg: Settings, events: seq<Event>, i: nat)
    requires !cfg.enabled
    ensures Invisible(cfg, events, i)
  {
  }

  /**
   Pruning is invisible, in every answer of every run, exactly when the guard is disabled or all
   three meters are forgettable.
   */
  lemma PruningInvisibleIff(cfg: Settings, ip: IpAddr)
    requires Sane(cfg)
    ensures (!cfg.enabled || forall m :: Forgettable(m, cfg)) <==> forall events, i: nat :: Invisible(cfg, events, i)
  {
    hide Forgettable, Answer, AdmittedBetween;
    if !cfg.enabled {
      forall events, i: nat ensures Invisible(cfg, events, i) {
        DisabledIsInvisible(cfg, events, i);
      }
    } else if forall m :: Forgettable(m, cfg) {
      forall events, i: nat ensures Invisible(cfg, events, i) {
        if Monotone(events) && i < |events| {
          PruningIsInvisible(cfg, events, i);
        }
      }
    } else {
      var m :| !Forgettable(m, cfg);
      var run, u := BeatsBound(m, cfg, ip);
      WindowBound(m, ip, cfg, false, run, 0.0, u);
      if forall i: nat :: Invisible(cfg, run, i) {
        SameAnswersSameTraffic(m, ip, cfg, run, 0.0, u);
        assert false;
      }
    }
  }
}
