/** The three things the flood guard meters per address, each with its bucket. */
module DdosMeters {
  import opened DdosGuard

  datatype Meter = TcpConnections | UdpPackets | UdpBytes

  function Rate(m: Meter, cfg: Settings): real {
    match m case TcpConnections => cfg.tcpRate case UdpPackets => cfg.packetRate case UdpBytes => cfg.byteRate
  }

  function Burst(m: Meter, cfg: Settings): real {
    match m case TcpConnections => cfg.tcpBurst case UdpPackets => cfg.packetBurst case UdpBytes => cfg.byteBurst
  }

  function BucketOf(m: Meter, s: IpState): TokenBucket {
    match m case TcpConnections => s.tcp case UdpPackets => s.packets case UdpBytes => s.bytes
  }

  /** Tokens a meter's bucket earns over a stretch of time. */
  function Earned(m: Meter, cfg: Settings, a: real, b: real): real { Rate(m, cfg) * (b - a) }

  /** Tokens an idle address earns back before it is forgotten. */
  function Forgiven(m: Meter, cfg: Settings): real { IDLE_STATE_RETENTION * Rate(m, cfg) }

  /** The bucket refills completely within the idle-retention time. */
  predicate Refills(m: Meter, cfg: Settings) { Burst(m, cfg) <= Forgiven(m, cfg) }
}
