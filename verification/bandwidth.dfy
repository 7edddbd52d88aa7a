/** The client's fixed-window bandwidth limiter. */
module Bandwidth {
  const WINDOW_MS: int := 1000

  datatype Direction = Inbound | Outbound

  /** A chunk or datagram at the moment it asks for bandwidth. */
  datatype Traffic = Traffic(now: int, bytes: nat, direction: Direction)

  datatype State = State(startedAt: int, windowBytes: nat, bytesIn: nat, bytesOut: nat)

  function Total(s: State): nat { s.bytesIn + s.bytesOut }

  /** The window after an ask; rejected bytes stay in it. */
  function Consume(s: State, now: int, bytes: nat): State {
    var o := if now - s.startedAt >= WINDOW_MS then s.(startedAt := now, windowBytes := 0) else s;
    o.(windowBytes := o.windowBytes + bytes)
  }

  function Step(max: nat, s: State, t: Traffic): State {
    var c := Consume(s, t.now, t.bytes);
    if c.windowBytes > max then c
    else if t.direction.Inbound? then c.(bytesIn := c.bytesIn + t.bytes)
    else c.(bytesOut := c.bytesOut + t.bytes)
  }

  function After(max: nat, s: State, traffic: seq<Traffic>): State
    decreases |traffic|
  {
    if traffic == [] then s else After(max, Step(max, s, traffic[0]), traffic[1..])
  }

  // ---------- one ask ----------

  /** What the current window may still admit. */
  function Room(max: nat, s: State): nat { if s.windowBytes <= max then max - s.windowBytes else 0 }

  predicate Reopens(s: State, t: Traffic) { t.now - s.startedAt >= WINDOW_MS }

  lemma AskWithin(max: nat, s: State, t: Traffic)
    ensures var n := Step(max, s, t);
      && Total(s) <= Total(n)
      && Total(n) + Room(max, n) <= Total(s) + (if Reopens(s, t) then max else Room(max, s))
      && n.startedAt == if Reopens(s, t) then t.now else s.startedAt
  {
  }

  lemma OneMore(m: nat, max: nat)
    requires m > 0
    ensures (m - 1) * max + max == m * max
  {
  }

  /** Windows start at least one window length apart. */
  lemma {:induction false} WithinWindows(max: nat, s: State, traffic: seq<Traffic>, until: int, m: nat)
    requires until <= s.startedAt + (m + 1) * WINDOW_MS
    requires forall i :: 0 <= i < |traffic| ==> traffic[i].now < until
    ensures Total(After(max, s, traffic)) <= Total(s) + Room(max, s) + m * max
    decreases |traffic|
  {
    hide Step, Total, Room;
    if traffic != [] {
      var t := traffic[0];
      var n := Step(max, s, t);
      AskWithin(max, s, t);
      if Reopens(s, t) {
        OneMore(m, max);
        WithinWindows(max, n, traffic[1..], until, m - 1);
      } else {
        WithinWindows(max, n, traffic[1..], until, m);
      }
    }
  }

  lemma {:induction false} FromOn(max: nat, s: State, traffic: seq<Traffic>, from: int, k: nat)
    requires forall i :: 0 <= i < |traffic| ==> from <= traffic[i].now < from + k * WINDOW_MS
    ensures Total(After(max, s, traffic)) <= Total(s) + Room(max, s) + k * max
    decreases |traffic|
  {
    hide Step, Total, Room;
    if traffic != [] {
      var t := traffic[0];
      var n := Step(max, s, t);
      AskWithin(max, s, t);
      if Reopens(s, t) {
        OneMore(k, max);
        WithinWindows(max, n, traffic[1..], from + k * WINDOW_MS, k - 1);
      } else {
        FromOn(max, n, traffic[1..], from, k);
      }
    }
  }

  lemma {:induction false} AfterSplit(max: nat, s: State, a: seq<Traffic>, b: seq<Traffic>)
    ensures After(max, s, a + b) == After(max, After(max, s, a), b)
    decreases |a|
  {
    if a == [] {
      assert a + b == b;
    } else {
      assert (a + b)[1..] == a[1..] + b;
      AfterSplit(max, Step(max, s, a[0]), a[1..], b);
    }
  }

  /** The bytes counted between two points of a run. */
  function CountedBetween(max: nat, s: State, traffic: seq<Traffic>, i: nat, j: nat): int
    requires i <= j <= |traffic|
  {
    Total(After(max, s, traffic[..j])) - Total(After(max, s, traffic[..i]))
  }

  /**
   Whatever came before, the bytes counted in and out during k windows' time are at most k + 1
   times the limit: the part of a run that falls into [from, from + k * 1000) is one stretch of it.
   */
  lemma WindowBound(max: nat, s: State, traffic: seq<Traffic>, i: nat, j: nat, from: int, k: nat)
    requires i <= j <= |traffic|
    requires forall n :: i <= n < j ==> from <= traffic[n].now < from + k * WINDOW_MS
    ensures 0 <= CountedBetween(max, s, traffic, i, j) <= (k + 1) * max
  {
    hide Step, Total, Room;
    var first := After(max, s, traffic[..i]);
    var inside := traffic[i..j];
    assert traffic[..j] == traffic[..i] + inside;
    AfterSplit(max, s, traffic[..i], inside);
    forall n | 0 <= n < |inside| ensures from <= inside[n].now < from + k * WINDOW_MS {
      assert inside[n] == traffic[i + n];
    }
    FromOn(max, first, inside, from, k);
    RoomAtMost(max, first);
    NeverLess(max, first, inside);
    OneMore(k + 1, max);
  }

  lemma RoomAtMost(max: nat, s: State)
    ensures Room(max, s) <= max
  {
  }

  lemma {:induction false} NeverLess(max: nat, s: State, traffic: seq<Traffic>)
    ensures Total(s) <= Total(After(max, s, traffic))
    decreases |traffic|
  {
    hide Step, Total;
    if traffic != [] {
      AskWithin(max, s, traffic[0]);
      NeverLess(max, Step(max, s, traffic[0]), traffic[1..]);
    }
  }

  // ---------- the bound is attained ----------

  /** One full limit at the end of a window, then one at the start of each of the next k. */
  function Burst(max: nat, at: int, k: nat): seq<Traffic>
    decreases k
  {
    if k == 0 then [] else [Traffic(at, max, Inbound)] + Burst(max, at + WINDOW_MS, k - 1)
  }

  lemma {:induction false} BurstCounts(max: nat, s: State, at: int, k: nat)
    requires at - s.startedAt >= WINDOW_MS
    ensures Total(After(max, s, Burst(max, at, k))) == Total(s) + k * max
    decreases k
  {
    if k > 0 {
      var rest := Burst(max, at + WINDOW_MS, k - 1);
      assert Burst(max, at, k)[1..] == rest;
      var n := Step(max, s, Traffic(at, max, Inbound));
      BurstCounts(max, n, at + WINDOW_MS, k - 1);
      OneMore(k, max);
    }
  }

  lemma {:induction false} BurstTimes(max: nat, at: int, k: nat)
    ensures |Burst(max, at, k)| == k
    ensures forall i :: 0 <= i < k ==> Burst(max, at, k)[i].now == at + i * WINDOW_MS
    decreases k
  {
    if k > 0 {
      BurstTimes(max, at + WINDOW_MS, k - 1);
    }
  }

  /**
   For every limit and every k a run from the empty state, with a clock that never goes back,
   reaches k + 1 times the limit within k windows' time, so the bound is the best one.
   */
  lemma WindowBoundIsTight(max: nat, k: nat) returns (s: State, traffic: seq<Traffic>, from: int)
    requires k > 0
    ensures s == State(0, 0, 0, 0)
    ensures forall n :: 0 <= n < |traffic| ==> s.startedAt <= from <= traffic[n].now < from + k * WINDOW_MS
    ensures forall n :: 1 <= n < |traffic| ==> traffic[n - 1].now <= traffic[n].now
    ensures CountedBetween(max, s, traffic, 0, |traffic|) == (k + 1) * max
  {
    s := State(0, 0, 0, 0);
    from := WINDOW_MS - 1;
    var first := Traffic(from, max, Inbound);
    var rest := Burst(max, WINDOW_MS, k);
    traffic := [first] + rest;
    BurstTimes(max, WINDOW_MS, k);
    var n := Step(max, s, first);
    BurstCounts(max, n, WINDOW_MS, k);
    assert traffic[1..] == rest && traffic[..|traffic|] == traffic && traffic[..0] == [];
    OneMore(k + 1, max);
  }

  // ---------- the running service ----------

  class SharedService {
    var bandwidthWindowStartedAt: int
    var bandwidthWindowBytes: nat
    var bytesIn: nat
    var bytesOut: nat

    ghost function Shown(): State
      reads this
    {
      State(bandwidthWindowStartedAt, bandwidthWindowBytes, bytesIn, bytesOut)
    }

    constructor (now: int)
      ensures Shown() == State(now, 0, 0, 0)
    {
      bandwidthWindowStartedAt := now;
      bandwidthWindowBytes := 0;
      bytesIn := 0;
      bytesOut := 0;
    }

    method ConsumeBandwidth(max: nat, now: int, bytes: nat) returns (ok: bool)
      modifies this
      ensures Shown() == Consume(old(Shown()), now, bytes)
      ensures ok <==> bandwidthWindowBytes <= max
    {
      if now - bandwidthWindowStartedAt >= WINDOW_MS {
        bandwidthWindowStartedAt := now;
        bandwidthWindowBytes := 0;
      }
      bandwidthWindowBytes := bandwidthWindowBytes + bytes;
      ok := !(bandwidthWindowBytes > max);
    }

    /** A chunk or datagram in either direction, counted only when it is let through. */
    method HandleTraffic(max: nat, t: Traffic) returns (passed: bool)
      modifies this
      ensures Shown() == Step(max, old(Shown()), t)
    {
      passed := ConsumeBandwidth(max, t.now, t.bytes);
      if passed {
        if t.direction.Inbound? {
          bytesIn := bytesIn + t.bytes;
        } else {
          bytesOut := bytesOut + t.bytes;
        }
      }
    }
  }
}
