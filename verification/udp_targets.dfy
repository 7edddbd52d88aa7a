/** The header rule for one target: what lets a header into a mapping that the target still holds. */
module UdpTargets {
  import opened Net
  import opened UdpSession
  import opened UdpHeaders
  import opened UdpHistory

  // ---------- the log over time ----------

  lemma {:induction false} LogPrefix(rule: Rule, events: seq<Event>, e: nat)
    requires e <= |events|
    ensures Log(rule, events[..e]) <= Log(rule, events)
    decreases |events|
  {
    hide Step;
    if e < |events| {
      var before := events[..|events| - 1];
      Grows(rule, events);
      LogPrefix(rule, before, e);
      assert before[..e] == events[..e];
    } else {
      assert events[..e] == events;
    }
  }

  /** Datagram k is in the log from its own event on. */
  lemma {:induction false} LogLength(rule: Rule, events: seq<Event>, k: nat, e: nat)
    requires k < |Log(rule, events)| && e <= |events|
    ensures e <= SentBy(rule, events, k) <==> |Log(rule, events[..e])| <= k
    decreases |events|
  {
    hide Step;
    var n := |events| - 1;
    var before := events[..n];
    Grows(rule, events);
    SentByBounds(rule, events, k);
    if k < |Log(rule, before)| {
      SentByBounds(rule, before, k);
      if e <= n {
        LogLength(rule, before, k, e);
        assert before[..e] == events[..e];
      } else {
        assert events[..e] == events;
      }
    } else if e <= n {
      LogPrefix(rule, before, e);
      assert before[..e] == events[..e];
    } else {
      assert events[..e] == events;
    }
  }

  // ---------- a datagram that no target took ----------

  /** A client datagram that every target from the given one on refused. */
  predicate LostAt(rule: Rule, events: seq<Event>, e: nat, target: nat)
    requires e < |events|
  {
    && events[e].FromClient? && ClientPayload(rule, events[e].d.packet) != []
    && forall i :: target <= i < |rule.targets| && rule.targets[i].Some? ==> i in events[e].d.failing
  }

  lemma {:induction false} NoneUsable(rule: Rule, i: nat, failing: set<nat>)
    requires i <= |rule.targets|
    ensures FirstUsableFrom(rule, i, failing) == |rule.targets| <==>
      forall j :: i <= j < |rule.targets| && rule.targets[j].Some? ==> j in failing
    decreases |rule.targets| - i
  {
    if i < |rule.targets| {
      if rule.targets[i].Some? && i !in failing {
        assert FirstUsableFrom(rule, i, failing) == i;
      } else {
        NoneUsable(rule, i + 1, failing);
      }
    }
  }

  /** With its active target reached, a send fails before it exactly when no target is. */
  lemma StepFails(rule: Rule, r: Run, d: Datagram)
    requires Consistent(rule, r) && r.log != [] && ClientPayload(rule, d.packet) != []
    ensures var r1 := Step(rule, r, FromClient(d)); var target := r.session.activeTarget;
      && (|r1.log| > |r.log| && r1.log[|r.log|].target == target ==> !Failed(rule, r.session, d))
      && (|r1.log| == |r.log| ==> (Failed(rule, r.session, d) <==>
            forall i :: target <= i < |rule.targets| && rule.targets[i].Some? ==> i in d.failing))
      && (|r1.log| > |r.log| ==>
            !(forall i :: target <= i < |rule.targets| && rule.targets[i].Some? ==> i in d.failing))
  {
    hide ClientPayload, TrySend, FirstUsableFrom;
    var s1 := ReArm(rule, r.session, d.checkedAt);
    SendOutcome(rule, s1, s1.activeTarget, d.failing, d.client, ClientPayload(rule, d.packet));
    UsableIsFirst(rule, s1.activeTarget, d.failing);
    FirstUsableBound(rule, s1.activeTarget, d.failing);
    NoneUsable(rule, s1.activeTarget, d.failing);
  }

  /** Between two sends to one target, a send fails exactly when a datagram is lost. */
  lemma FailsIffLost(rule: Rule, events: seq<Event>, k: nat, e: nat)
    requires 0 < k < |Log(rule, events)| && Log(rule, events)[k - 1].target == Log(rule, events)[k].target
    requires SentBy(rule, events, k - 1) < e <= SentBy(rule, events, k) < |events|
    ensures FailsAt(rule, events, e) <==> LostAt(rule, events, e, Log(rule, events)[k].target)
    ensures e == SentBy(rule, events, k) ==> !FailsAt(rule, events, e)
  {
    hide Step, ClientPayload, Failed, SentBy;
    var before := events[..e];
    var r := RunOf(rule, before);
    LogLength(rule, events, k, e);
    LogLength(rule, events, k, e + 1);
    LogLength(rule, events, k - 1, e);
    LogPrefix(rule, events, e);
    LogPrefix(rule, events, e + 1);
    RunConsistent(rule, before, 0);
    assert events[..e + 1][..e] == before && events[..e + 1][e] == events[e];
    if events[e].FromClient? && ClientPayload(rule, events[e].d.packet) != [] {
      Grows(rule, events[..e + 1]);
      StepFails(rule, r, events[e].d);
    }
  }

  /**
   One target, within ten seconds: of two datagrams that a session sends to the same target, the
   later carries a header if and only if a datagram in between was refused by every target from
   that one on.
   */
  lemma SameTargetHeaderIff(rule: Rule, events: seq<Event>, i: nat, k: nat)
    requires Timed(events) && rule.raknet && rule.haproxy && i < k < |Log(rule, events)|
    requires var log := Log(rule, events);
      log[i].target == log[k].target && Ms(log[k].checkedAt) < Ms(log[i].sentAt) + MAPPING_TIMEOUT_MS
    ensures Log(rule, events)[k].header <==>
      exists e: nat :: SentBy(rule, events, k - 1) < e < SentBy(rule, events, k) < |events|
        && LostAt(rule, events, e, Log(rule, events)[k].target)
  {
    hide Timed, SentBy, RunOf, FailsAt, LostAt, Ms;
    var target := Log(rule, events)[k].target;
    LiveMappingHeaderIff(rule, events, i, k);
    RecordedIsHistory(rule, events, k);
    SentByBounds(rule, events, k);
    TargetsMoveForward(rule, events, k - 1, k);
    if i < k - 1 {
      TargetsMoveForward(rule, events, i, k - 1);
    }
    var from, to := SentBy(rule, events, k - 1), SentBy(rule, events, k);
    forall e: nat | from < e <= to
      ensures FailsAt(rule, events, e) <==> LostAt(rule, events, e, target)
      ensures e == to ==> !FailsAt(rule, events, e)
    {
      FailsIffLost(rule, events, k, e);
    }
  }

  // ---------- failover ----------

  lemma FailoverStep(rule: Rule, r: Run, d: Datagram)
    requires Consistent(rule, r) && r.log != [] && rule.raknet && rule.haproxy && ClientPayload(rule, d.packet) != []
    ensures var r1 := Step(rule, r, FromClient(d));
      |r1.log| > |r.log| && r1.log[|r.log|].target != r.session.activeTarget ==> r1.log[|r.log|].header
  {
    hide ClientPayload, TrySend, FirstUsableFrom;
    var s1 := ReArm(rule, r.session, d.checkedAt);
    SendOutcome(rule, s1, s1.activeTarget, d.failing, d.client, ClientPayload(rule, d.packet));
    UsableIsFirst(rule, s1.activeTarget, d.failing);
  }

  lemma {:induction false} ChangeCarriesHeader(rule: Rule, events: seq<Event>, k: nat)
    requires rule.raknet && rule.haproxy && 0 < k < |Log(rule, events)|
    requires Log(rule, events)[k - 1].target != Log(rule, events)[k].target
    ensures Log(rule, events)[k].header
  {
    hide Step, ClientPayload;
    var n := |events| - 1;
    var before := events[..n];
    Grows(rule, events);
    if k < |Log(rule, before)| {
      ChangeCarriesHeader(rule, before, k);
    } else {
      RunConsistent(rule, before, 0);
      FailoverStep(rule, RunOf(rule, before), events[n].d);
    }
  }

  /** Failover goes to a target never sent to before, and announces the client to it. */
  lemma FailoverIsNew(rule: Rule, events: seq<Event>, i: nat, k: nat)
    requires rule.raknet && rule.haproxy && i < k < |Log(rule, events)|
    requires Log(rule, events)[k - 1].target != Log(rule, events)[k].target
    ensures Log(rule, events)[i].target < Log(rule, events)[k].target && Log(rule, events)[k].header
  {
    ChangeCarriesHeader(rule, events, k);
    TargetsMoveForward(rule, events, k - 1, k);
    if i < k - 1 {
      TargetsMoveForward(rule, events, i, k - 1);
    }
  }
}
