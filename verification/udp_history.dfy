/** The header rule read off the events alone: who sent, when anything was last heard, what failed since. */
module UdpHistory {
  import opened UdpSession
  import opened UdpHeaders

  function Log(rule: Rule, events: seq<Event>): seq<Logged> { RunOf(rule, events).log }

  /** The last event of a run is a client datagram that reached a target. */
  predicate Sends(rule: Rule, events: seq<Event>) {
    events != [] && |Log(rule, events)| > |Log(rule, events[..|events| - 1])|
  }

  /** The event that sent the k-th datagram. */
  function SentBy(rule: Rule, events: seq<Event>, k: nat): int {
    if events == [] then -1
    else if k < |Log(rule, events[..|events| - 1])| then SentBy(rule, events[..|events| - 1], k)
    else |events| - 1
  }

  /** When the session last sent or received anything; its start if nothing yet. */
  function LastHeard(rule: Rule, events: seq<Event>): nat {
    if events == [] then 0
    else
      var e := events[|events| - 1];
      if e.FromBackend? then e.at
      else if Sends(rule, events) then e.d.touchedAt
      else LastHeard(rule, events[..|events| - 1])
  }

  /** How long the session had been quiet when event j checked, in whole milliseconds. */
  function QuietMs(rule: Rule, events: seq<Event>, j: nat): nat
    requires j < |events|
  {
    SatSub(Ms(Starts(events[j])), Ms(LastHeard(rule, events[..j])))
  }

  /** Event i is a client datagram with a send that failed. */
  predicate FailsAt(rule: Rule, events: seq<Event>, i: nat)
    requires i < |events|
  {
    var e := events[i];
    e.FromClient? && ClientPayload(rule, e.d.packet) != [] && Failed(rule, RunOf(rule, events[..i]).session, e.d)
  }

  /** A send has failed after event `from`, up to event `to`. */
  ghost predicate FailsBetween(rule: Rule, events: seq<Event>, from: int, to: int) {
    exists i: nat :: from < i <= to && i < |events| && FailsAt(rule, events, i)
  }

  function LastSent(rule: Rule, events: seq<Event>): int {
    var n := |Log(rule, events)|;
    if n == 0 then -1 else SentBy(rule, events, n - 1)
  }

  // ---------- the recorded fields are the history ----------

  /** Every event adds at most one datagram, and only a client's does. */
  lemma Grows(rule: Rule, events: seq<Event>)
    requires events != []
    ensures var before, e := events[..|events| - 1], events[|events| - 1];
      && Log(rule, before) <= Log(rule, events) && |Log(rule, events)| <= |Log(rule, before)| + 1
      && (Sends(rule, events) ==> e.FromClient? && ClientPayload(rule, e.d.packet) != [])
  {
    hide HandleDatagram, Failed, ClientPayload;
    LogGrows(rule, RunOf(rule, events[..|events| - 1]), events[|events| - 1]);
  }

  lemma ActivityStep(rule: Rule, r: Run, e: Event)
    ensures var r1 := Step(rule, r, e);
      r1.session.lastActivityMs ==
        if e.FromBackend? then Ms(e.at) else if |r1.log| > |r.log| then Ms(e.d.touchedAt) else r.session.lastActivityMs
  {
    hide ClientPayload, TrySend, Failed, Ms;
    if e.FromClient? && ClientPayload(rule, e.d.packet) != [] {
      var s1 := ReArm(rule, r.session, e.d.checkedAt);
      SendOutcome(rule, s1, s1.activeTarget, e.d.failing, e.d.client, ClientPayload(rule, e.d.packet));
    }
  }

  lemma {:induction false} ActivityIsLastHeard(rule: Rule, events: seq<Event>)
    ensures RunOf(rule, events).session.lastActivityMs == Ms(LastHeard(rule, events))
  {
    hide Step, Ms;
    if events != [] {
      ActivityIsLastHeard(rule, events[..|events| - 1]);
      ActivityStep(rule, RunOf(rule, events[..|events| - 1]), events[|events| - 1]);
    } else {
      assert Ms(0) == 0 by { StartOfTime(); }
    }
  }

  lemma StartOfTime()
    ensures Ms(0) == 0
  {
  }

  lemma PrefixOf(events: seq<Event>, i: nat)
    requires events != [] && i < |events| - 1
    ensures events[..|events| - 1][..i] == events[..i] && events[..|events| - 1][i] == events[i]
  {
  }

  lemma {:induction false} SentByBounds(rule: Rule, events: seq<Event>, k: nat)
    requires k < |Log(rule, events)|
    ensures 0 <= SentBy(rule, events, k) < |events| && events[SentBy(rule, events, k)].FromClient?
  {
    hide Step, Failed;
    if events != [] {
      Grows(rule, events);
      if k < |Log(rule, events[..|events| - 1])| {
        SentByBounds(rule, events[..|events| - 1], k);
      }
    }
  }

  lemma StepRecords(rule: Rule, r: Run, e: Event)
    ensures var r1 := Step(rule, r, e);
      var fails := e.FromClient? && ClientPayload(rule, e.d.packet) != [] && Failed(rule, r.session, e.d);
      && (|r1.log| > |r.log| ==>
            && e.FromClient? && |r1.log| == |r.log| + 1 && !r1.failed
            && r1.log[|r.log|].idleMs == IdleMs(r.session, e.d.checkedAt)
            && r1.log[|r.log|].afterFailure == (r.failed || fails))
      && (|r1.log| <= |r.log| ==> r1.failed == (r.failed || fails))
  {
    hide HandleDatagram, Failed, ClientPayload;
  }

  lemma EarlierFails(rule: Rule, events: seq<Event>, from: int, to: int)
    requires events != [] && to < |events| - 1
    ensures FailsBetween(rule, events[..|events| - 1], from, to) <==> FailsBetween(rule, events, from, to)
  {
    hide FailsAt;
    var before := events[..|events| - 1];
    forall i: nat | i <= to ensures FailsAt(rule, before, i) == FailsAt(rule, events, i) {
      SameFails(rule, events, i);
    }
  }

  lemma SameFails(rule: Rule, events: seq<Event>, i: nat)
    requires events != [] && i < |events| - 1
    ensures FailsAt(rule, events[..|events| - 1], i) == FailsAt(rule, events, i)
  {
    hide Failed, ClientPayload, RunOf;
    PrefixOf(events, i);
  }

  lemma LastFails(rule: Rule, events: seq<Event>, from: int)
    requires events != [] && from < |events| - 1
    ensures FailsBetween(rule, events, from, |events| - 1) <==>
      FailsBetween(rule, events[..|events| - 1], from, |events| - 2) || FailsAt(rule, events, |events| - 1)
  {
    hide FailsAt;
    EarlierFails(rule, events, from, |events| - 2);
    if FailsBetween(rule, events, from, |events| - 2) {
      var i: nat :| from < i <= |events| - 2 && i < |events| && FailsAt(rule, events, i);
      assert from < i <= |events| - 1;
    }
  }

  /** The failure flag says whether a send has failed since the last datagram went out. */
  lemma {:induction false} FailedIsHistory(rule: Rule, events: seq<Event>)
    ensures RunOf(rule, events).failed <==> FailsBetween(rule, events, LastSent(rule, events), |events| - 1)
    ensures LastSent(rule, events) < |events|
  {
    hide Step, FailsAt, FailsBetween;
    if events == [] {
      assert !FailsBetween(rule, events, -1, -1) by { NothingFails(rule, -1, -1); }
    } else {
      var before, e := events[..|events| - 1], events[|events| - 1];
      FailedIsHistory(rule, before);
      Grows(rule, events);
      StepRecords(rule, RunOf(rule, before), e);
      if Sends(rule, events) {
        NothingAfter(rule, events, |events| - 1);
      } else {
        LastFails(rule, events, LastSent(rule, before));
        LastFailsAt(rule, events);
      }
    }
  }

  lemma LastFailsAt(rule: Rule, events: seq<Event>)
    requires events != []
    ensures var e := events[|events| - 1];
      FailsAt(rule, events, |events| - 1) == (e.FromClient? && ClientPayload(rule, e.d.packet) != []
        && Failed(rule, RunOf(rule, events[..|events| - 1]).session, e.d))
  {
  }

  lemma NothingFails(rule: Rule, from: int, to: int)
    ensures !FailsBetween(rule, [], from, to)
  {
  }

  lemma NothingAfter(rule: Rule, events: seq<Event>, to: int)
    ensures !FailsBetween(rule, events, to, to)
  {
  }

  /** What datagram k was sent after: how long a silence, and whether a send had failed since the one before. */
  lemma {:induction false} RecordedIsHistory(rule: Rule, events: seq<Event>, k: nat)
    requires k < |Log(rule, events)|
    ensures 0 <= SentBy(rule, events, k) < |events| && events[SentBy(rule, events, k)].FromClient?
    ensures Log(rule, events)[k].idleMs == QuietMs(rule, events, SentBy(rule, events, k))
    ensures Log(rule, events)[k].afterFailure <==>
      FailsBetween(rule, events, if k == 0 then -1 else SentBy(rule, events, k - 1), SentBy(rule, events, k))
  {
    hide Step, FailsAt, FailsBetween, Ms, LastHeard;
    SentByBounds(rule, events, k);
    var n := |events| - 1;
    var before := events[..n];
    Grows(rule, events);
    if k < |Log(rule, before)| {
      RecordedIsHistory(rule, before, k);
      var j := SentBy(rule, before, k);
      SentByBounds(rule, before, k);
      PrefixOf(events, j);
      EarlierFails(rule, events, if k == 0 then -1 else SentBy(rule, before, k - 1), j);
    } else {
      var r := RunOf(rule, before);
      StepRecords(rule, r, events[n]);
      ActivityIsLastHeard(rule, before);
      FailedIsHistory(rule, before);
      LastFails(rule, events, LastSent(rule, before));
      LastFailsAt(rule, events);
    }
  }

  /**
   The header rule, for every run: a datagram carries a header exactly when the session is RakNet with
   haproxy and it is the first, or nothing was sent or received for 10,000 ms before it, or a send has
   failed since the datagram before it.
   */
  lemma HeaderIff(rule: Rule, events: seq<Event>, k: nat)
    requires k < |Log(rule, events)|
    ensures var j := SentBy(rule, events, k);
      && 0 <= j < |events| && events[j].FromClient?
      && (Log(rule, events)[k].header <==>
            && rule.raknet && rule.haproxy
            && (k == 0 || QuietMs(rule, events, j) >= MAPPING_TIMEOUT_MS ||
              FailsBetween(rule, events, SentBy(rule, events, k - 1), j)))
  {
    hide FailsBetween, QuietMs, SentBy, RunOf;
    RecordedIsHistory(rule, events, k);
    RunConsistent(rule, events, k);
  }
}
