/** The shared relay's port allocator. */
module Allocator {
  import opened Net

  datatype Config = Config(start: u16, end: u16, queueEnabled: bool, queueMax: nat)

  datatype Allocation = Allocation(port: u16, token: Option<string>, client: SocketAddr)

  type Allocations = map<u16, Allocation>

  datatype Outcome = Allocated(port: u16) | TokenInUse | Full

  /** What one CONNECT asks for. */
  datatype Request = Request(token: Option<string>, client: SocketAddr, fixedPort: Option<u16>)

  datatype Answer = Answer(allocations: Allocations, outcome: Outcome)

  /** The number of ports in the range, as sixteen-bit arithmetic computes it. */
  function RangeSize(cfg: Config): nat { (cfg.end - cfg.start + 1) % 65536 }

  /** A range in order, or so reversed that its size comes out as zero; configuration does not check. */
  predicate InOrder(cfg: Config) { cfg.start <= cfg.end + 1 }

  predicate InRange(cfg: Config, port: u16) { cfg.start <= port <= cfg.end }

  /** A port the scan comes to: from the start on, wrapping around behind the last port, for the range's size. */
  predicate Scanned(cfg: Config, port: u16) { (port - cfg.start) % 65536 < RangeSize(cfg) }

  function Candidate(cfg: Config, offset: nat, i: nat): u16
    requires RangeSize(cfg) > 0
  {
    (cfg.start + (offset + i) % RangeSize(cfg)) % 65536
  }

  predicate TokenTaken(allocations: Allocations, token: Option<string>) {
    token.Some? && token.value != [] && exists p :: p in allocations && allocations[p].token == token
  }

  function Grant(allocations: Allocations, port: u16, r: Request): Answer {
    Answer(allocations[port := Allocation(port, r.token, r.client)], Allocated(port))
  }

  /** The rotated scan from its i-th candidate on. */
  function Scan(cfg: Config, allocations: Allocations, r: Request, offset: nat, i: nat): Answer
    decreases RangeSize(cfg) - i
  {
    if i >= RangeSize(cfg) then Answer(allocations, Full)
    else if Candidate(cfg, offset, i) !in allocations then Grant(allocations, Candidate(cfg, offset, i), r)
    else Scan(cfg, allocations, r, offset, i + 1)
  }

  function TryAllocate(cfg: Config, allocations: Allocations, r: Request, offset: nat): Answer {
    if TokenTaken(allocations, r.token) then Answer(allocations, TokenInUse)
    else
      match r.fixedPort
      case Some(port) =>
        if InRange(cfg, port) && port !in allocations then Grant(allocations, port, r) else Answer(allocations, Full)
      case None => Scan(cfg, allocations, r, offset, 0)
  }

  // ---------- one attempt ----------

  lemma {:induction false} ScanOutcome(cfg: Config, allocations: Allocations, r: Request, offset: nat, i: nat)
    ensures var a := Scan(cfg, allocations, r, offset, i);
      match a.outcome
      case Allocated(p) => Scanned(cfg, p) && p !in allocations && a == Grant(allocations, p, r)
      case Full =>
        && a.allocations == allocations
        && forall k :: i <= k < RangeSize(cfg) ==> Candidate(cfg, offset, k) in allocations
      case TokenInUse => false
    decreases RangeSize(cfg) - i
  {
    hide Candidate, Scanned;
    if i < RangeSize(cfg) {
      if Candidate(cfg, offset, i) in allocations {
        ScanOutcome(cfg, allocations, r, offset, i + 1);
      } else {
        CandidateScanned(cfg, offset, i);
      }
    }
  }

  lemma Wraps(x: nat, n: nat)
    requires 0 < n && x < n
    ensures x % n == x && (x + n) % n == x
  {
  }

  lemma AroundAndBack(start: u16, x: nat)
    requires x < 65536
    ensures ((start + x) % 65536 - start) % 65536 == x
  {
  }

  lemma BackAndAround(start: u16, port: u16)
    ensures (start + (port - start) % 65536) % 65536 == port
  {
  }

  lemma CandidateScanned(cfg: Config, offset: nat, k: nat)
    requires RangeSize(cfg) > 0
    ensures Scanned(cfg, Candidate(cfg, offset, k))
  {
    hide RangeSize;
    var x := (offset + k) % RangeSize(cfg);
    assert x < 65536 by { SizeFits(cfg); }
    AroundAndBack(cfg.start, x);
  }

  lemma SizeFits(cfg: Config)
    ensures RangeSize(cfg) < 65536
  {
  }

  /** Scanned ports are those of the range when it is in order and not all of them. */
  lemma ScannedIffInRange(cfg: Config, port: u16)
    requires InOrder(cfg)
    ensures Scanned(cfg, port) <==> InRange(cfg, port) && !(cfg.start == 0 && cfg.end == 65535)
  {
  }

  /** The rotation visits every scanned port, from any offset. */
  lemma ScanHitsEvery(cfg: Config, offset: nat, port: u16) returns (k: nat)
    requires offset < RangeSize(cfg) && Scanned(cfg, port)
    ensures k < RangeSize(cfg) && Candidate(cfg, offset, k) == port
  {
    hide RangeSize;
    var size, want := RangeSize(cfg), (port - cfg.start) % 65536;
    Wraps(want, size);
    k := if want >= offset then want - offset else want + size - offset;
    BackAndAround(cfg.start, port);
  }

  /** What one attempt does, whatever it asks. */
  lemma AttemptOutcome(cfg: Config, allocations: Allocations, r: Request, offset: nat)
    ensures var a := TryAllocate(cfg, allocations, r, offset);
      match a.outcome
      case Allocated(p) =>
        && (InOrder(cfg) ==> InRange(cfg, p)) && p !in allocations && a == Grant(allocations, p, r)
        && (r.fixedPort.Some? ==> p == r.fixedPort.value) && !TokenTaken(allocations, r.token)
      case TokenInUse => a.allocations == allocations && TokenTaken(allocations, r.token)
      case Full =>
        && a.allocations == allocations && !TokenTaken(allocations, r.token)
        && (r.fixedPort.Some? ==> !InRange(cfg, r.fixedPort.value) || r.fixedPort.value in allocations)
  {
    hide Scan, Scanned;
    if r.fixedPort.None? && !TokenTaken(allocations, r.token) {
      ScanOutcome(cfg, allocations, r, offset, 0);
      var a := TryAllocate(cfg, allocations, r, offset);
      if InOrder(cfg) && a.outcome.Allocated? {
        ScannedIffInRange(cfg, a.outcome.port);
      }
    }
  }

  /** A request without a fixed port is told Full exactly when every port the scan comes to is taken. */
  lemma FullIff(cfg: Config, allocations: Allocations, r: Request, offset: nat)
    requires RangeSize(cfg) > 0 ==> offset < RangeSize(cfg)
    requires r.fixedPort.None? && !TokenTaken(allocations, r.token)
    ensures TryAllocate(cfg, allocations, r, offset).outcome.Full? <==>
      forall p: u16 :: Scanned(cfg, p) ==> p in allocations
  {
    hide Scan, Candidate;
    ScanOutcome(cfg, allocations, r, offset, 0);
    if TryAllocate(cfg, allocations, r, offset).outcome.Full? {
      forall p: u16 | Scanned(cfg, p) ensures p in allocations {
        var k := ScanHitsEvery(cfg, offset, p);
      }
    }
  }

  /** For a range in order: when it is all taken, or when it is all sixteen-bit ports, whose size overflows to zero. */
  lemma FullInOrderIff(cfg: Config, allocations: Allocations, r: Request, offset: nat)
    requires InOrder(cfg) && (RangeSize(cfg) > 0 ==> offset < RangeSize(cfg))
    requires r.fixedPort.None? && !TokenTaken(allocations, r.token)
    ensures TryAllocate(cfg, allocations, r, offset).outcome.Full? <==>
      (forall p: u16 :: InRange(cfg, p) ==> p in allocations) || (cfg.start == 0 && cfg.end == 65535)
  {
    hide TryAllocate, Scanned, RangeSize;
    FullIff(cfg, allocations, r, offset);
    forall p: u16 ensures Scanned(cfg, p) <==> InRange(cfg, p) && !(cfg.start == 0 && cfg.end == 65535) {
      ScannedIffInRange(cfg, p);
    }
  }

  /**
   Grants stay in range for every request and every table exactly when the range is in order.
   */
  lemma GrantsInRangeIff(cfg: Config)
    ensures (forall allocations, r, offset :: GrantInRange(cfg, TryAllocate(cfg, allocations, r, offset)))
      <==> InOrder(cfg)
  {
    if InOrder(cfg) {
      forall allocations, r, offset ensures GrantInRange(cfg, TryAllocate(cfg, allocations, r, offset)) {
        AttemptOutcome(cfg, allocations, r, offset);
      }
    } else {
      ReversedRange(cfg);
    }
  }

  predicate GrantInRange(cfg: Config, a: Answer) { a.outcome.Allocated? ==> InRange(cfg, a.outcome.port) }

  lemma ReversedRange(cfg: Config)
    requires !InOrder(cfg)
    ensures var r := Request(None, SocketAddr(V4([127, 0, 0, 1]), 0), None);
      TryAllocate(cfg, map[], r, 0).outcome == Allocated(cfg.start) && !GrantInRange(cfg, TryAllocate(cfg, map[], r, 0))
  {
    var size := RangeSize(cfg);
    assert size == cfg.end - cfg.start + 1 + 65536;
    Wraps(0, size);
    assert Candidate(cfg, 0, 0) == cfg.start;
  }
}
