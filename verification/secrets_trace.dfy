/** Who is permitted what, read off the history of operations. */
module SecretsTrace {
  import opened Net
  import opened Secrets

  /** The operation takes the scope away from credentials with the id. */
  predicate Withdraws(s: Step, id: string, scope: string) {
    s.saved && match s
               case Revoke(i, _) => i == id
               case RemoveSource(i, _) => scope == ScopeOf(i)
               case _ => false
  }

  /** The k-th operation issued the token with the scope, and nothing since has withdrawn it. */
  ghost predicate Granted(steps: seq<Step>, k: nat, token: string, scope: string) {
    && k < |steps| && steps[k].Issue? && Succeeds(After(steps[..k]), steps[k])
    && steps[k].draw.raw == token && scope in steps[k].scopes
    && forall j :: k < j < |steps| ==> !Withdraws(steps[j], steps[k].draw.id, scope)
  }

  /** A grant of one credential id and expiry. */
  ghost predicate GrantedAs(steps: seq<Step>, token: string, scope: string, id: string, expiresAt: Option<int>) {
    exists k: nat :: Granted(steps, k, token, scope) && IsIssue(steps[k], id, expiresAt)
  }

  predicate IsIssue(s: Step, id: string, expiresAt: Option<int>) {
    s.Issue? && s.draw.id == id && Expiry(s.expiresIn, s.draw) == expiresAt
  }

  /** The store holds such a credential. */
  ghost predicate Holds(d: Data, token: string, scope: string, id: string, expiresAt: Option<int>) {
    exists c :: c in d.credentials && Matches(c, d.salt, token, scope, id, expiresAt)
  }

  predicate Matches(c: Credential, salt: string, token: string, scope: string, id: string, expiresAt: Option<int>) {
    c.hash == Digest(token, salt) && scope in c.scopes && c.id == id && c.expiresAt == expiresAt
  }

  predicate Adds(d: Data, s: Step, token: string, scope: string, id: string, expiresAt: Option<int>) {
    Succeeds(d, s) && IsIssue(s, id, expiresAt) && s.draw.raw == token && scope in s.scopes
  }

  // ---------- one operation, on the store and on the history ----------

  lemma IssueHolds(d: Data, s: Step, token: string, scope: string, id: string, expiresAt: Option<int>)
    requires Inv(d) && s.Issue? && Succeeds(d, s)
    ensures Holds(Apply(d, s), token, scope, id, expiresAt) <==>
      Holds(d, token, scope, id, expiresAt) || Adds(d, s, token, scope, id, expiresAt)
  {
    hide Succeeds, UniqueIds, ScopesRegistered;
    var issued := IssuedCredential(d, s);
    var now := Apply(d, s);
    assert now.credentials == d.credentials + [issued];
    assert issued in now.credentials;
    if Holds(d, token, scope, id, expiresAt) {
      var c :| c in d.credentials && Matches(c, d.salt, token, scope, id, expiresAt);
      assert c in now.credentials;
      assert Matches(c, now.salt, token, scope, id, expiresAt);
    }
    if Adds(d, s, token, scope, id, expiresAt) {
      assert Matches(issued, now.salt, token, scope, id, expiresAt);
    }
  }

  lemma RevokeHolds(d: Data, revoked: string, token: string, scope: string, id: string, expiresAt: Option<int>)
    ensures Holds(d.(credentials := WithoutCredential(d.credentials, revoked)), token, scope, id, expiresAt) <==>
      Holds(d, token, scope, id, expiresAt) && id != revoked
  {
    forall c ensures c in WithoutCredential(d.credentials, revoked) <==> c in d.credentials && c.id != revoked {
      KeptCredentials(d.credentials, revoked, c);
    }
  }

  lemma StripHolds(d: Data, now: Data, gone: string, token: string, scope: string, id: string, expiresAt: Option<int>)
    requires now.salt == d.salt && now.credentials == StripScope(d.credentials, gone)
    ensures Holds(now, token, scope, id, expiresAt) <==> Holds(d, token, scope, id, expiresAt) && scope != gone
  {
    if Holds(now, token, scope, id, expiresAt) {
      var c :| c in now.credentials && Matches(c, now.salt, token, scope, id, expiresAt);
      var i :| 0 <= i < |now.credentials| && now.credentials[i] == c;
      KeptScopes(d.credentials[i].scopes, gone, scope);
      assert Matches(d.credentials[i], d.salt, token, scope, id, expiresAt);
    }
    if Holds(d, token, scope, id, expiresAt) && scope != gone {
      var c :| c in d.credentials && Matches(c, d.salt, token, scope, id, expiresAt);
      var i :| 0 <= i < |d.credentials| && d.credentials[i] == c;
      KeptScopes(c.scopes, gone, scope);
      assert now.credentials[i] in now.credentials;
      assert Matches(now.credentials[i], now.salt, token, scope, id, expiresAt);
    }
  }

  lemma StepHolds(d: Data, s: Step, token: string, scope: string, id: string, expiresAt: Option<int>)
    requires Inv(d)
    ensures Holds(Apply(d, s), token, scope, id, expiresAt) <==>
      (Holds(d, token, scope, id, expiresAt) && !Withdraws(s, id, scope)) || Adds(d, s, token, scope, id, expiresAt)
  {
    hide Inv, IssueAccepted, ValidId, IssuedCredential, Matches;
    if Succeeds(d, s) {
      match s
      case Issue(_, _, _, _, _) => IssueHolds(d, s, token, scope, id, expiresAt);
      case Revoke(revoked, _) => RevokeHolds(d, revoked, token, scope, id, expiresAt);
      case Register(_, _, _) => assert Apply(d, s).credentials == d.credentials && Apply(d, s).salt == d.salt;
      case RemoveSource(gone, _) => StripHolds(d, Apply(d, s), ScopeOf(gone), token, scope, id, expiresAt);
    }
  }

  lemma GrantBefore(steps: seq<Step>, k: nat, token: string, scope: string)
    requires steps != [] && k < |steps| - 1
    ensures Granted(steps, k, token, scope) <==>
      Granted(steps[..|steps| - 1], k, token, scope)
      && !Withdraws(steps[|steps| - 1], (if steps[k].Issue? then steps[k].draw.id else ""), scope)
  {
    hide Withdraws, Succeeds;
    var before := steps[..|steps| - 1];
    assert before[..k] == steps[..k] && before[k] == steps[k];
    forall j | k < j < |before| ensures before[j] == steps[j] {
    }
  }

  lemma StepGrants(steps: seq<Step>, token: string, scope: string, id: string, expiresAt: Option<int>)
    requires steps != []
    ensures var before := steps[..|steps| - 1];
      var s := steps[|steps| - 1];
      GrantedAs(steps, token, scope, id, expiresAt) <==>
        (GrantedAs(before, token, scope, id, expiresAt) && !Withdraws(s, id, scope))
        || Adds(After(before), s, token, scope, id, expiresAt)
  {
    hide Withdraws, Succeeds, After;
    var n := |steps| - 1;
    var before := steps[..n];
    if GrantedAs(steps, token, scope, id, expiresAt) {
      var k: nat :| Granted(steps, k, token, scope) && IsIssue(steps[k], id, expiresAt);
      if k < n {
        GrantBefore(steps, k, token, scope);
        assert before[k] == steps[k];
      }
    }
    if GrantedAs(before, token, scope, id, expiresAt) && !Withdraws(steps[n], id, scope) {
      var k: nat :| Granted(before, k, token, scope) && IsIssue(before[k], id, expiresAt);
      assert before[k] == steps[k];
      GrantBefore(steps, k, token, scope);
    }
    if Adds(After(before), steps[n], token, scope, id, expiresAt) {
      assert Granted(steps, n, token, scope);
    }
  }

  lemma {:induction false} HoldsIffGranted(steps: seq<Step>, token: string, scope: string, id: string,
                                           expiresAt: Option<int>)
    requires Salted(steps)
    ensures Holds(After(steps), token, scope, id, expiresAt) <==> GrantedAs(steps, token, scope, id, expiresAt)
  {
    hide Holds, Adds, Inv, Apply, Withdraws, Granted;
    if steps == [] {
      NothingAtFirst(token, scope, id, expiresAt);
    } else {
      var before := steps[..|steps| - 1];
      ReachableInv(before);
      StepHolds(After(before), steps[|steps| - 1], token, scope, id, expiresAt);
      StepGrants(steps, token, scope, id, expiresAt);
      HoldsIffGranted(before, token, scope, id, expiresAt);
    }
  }

  lemma NothingAtFirst(token: string, scope: string, id: string, expiresAt: Option<int>)
    ensures !Holds(EMPTY, token, scope, id, expiresAt) && !GrantedAs([], token, scope, id, expiresAt)
  {
  }

  lemma PermitsIsHolds(d: Data, token: string, scope: string, now: int)
    ensures Permits(d, token, scope, now) <==>
      exists id, expiresAt :: Holds(d, token, scope, id, expiresAt) && Alive(expiresAt, now)
  {
    if Permits(d, token, scope, now) {
      var i :| 0 <= i < |d.credentials| && Allows(d.credentials[i], Digest(token, d.salt), scope, now);
      var c := d.credentials[i];
      assert Matches(c, d.salt, token, scope, c.id, c.expiresAt);
      assert Holds(d, token, scope, c.id, c.expiresAt);
    }
    if id, expiresAt :| Holds(d, token, scope, id, expiresAt) && Alive(expiresAt, now) {
      var c :| c in d.credentials && Matches(c, d.salt, token, scope, id, expiresAt);
      var i :| 0 <= i < |d.credentials| && d.credentials[i] == c;
      assert Allows(d.credentials[i], Digest(token, d.salt), scope, now);
    }
  }

  // ---------- the main results ----------

  /**
   After any history, a token is permitted a scope exactly when some successful issue handed out that
   token with that scope, its expiry lies ahead, and neither a revocation of its credential nor a
   removal of the scope's certificate has succeeded since.
   */
  lemma PermitsIff(steps: seq<Step>, token: string, scope: string, now: int)
    requires Salted(steps)
    ensures Permits(After(steps), token, scope, now) <==>
      exists k: nat :: Granted(steps, k, token, scope) && Alive(Expiry(steps[k].expiresIn, steps[k].draw), now)
  {
    hide Granted, Holds, Permits, Alive, Expiry;
    var d := After(steps);
    PermitsIsHolds(d, token, scope, now);
    if Permits(d, token, scope, now) {
      var id, expiresAt :| Holds(d, token, scope, id, expiresAt) && Alive(expiresAt, now);
      HoldsIffGranted(steps, token, scope, id, expiresAt);
    }
    if k: nat :| Granted(steps, k, token, scope) && Alive(ExpiryAt(steps, k, token, scope), now) {
      GrantedIsIssue(steps, k, token, scope);
      HoldsIffGranted(steps, token, scope, steps[k].draw.id, Expiry(steps[k].expiresIn, steps[k].draw));
    }
  }

  ghost function ExpiryAt(steps: seq<Step>, k: nat, token: string, scope: string): Option<int>
    requires Granted(steps, k, token, scope)
  {
    Expiry(steps[k].expiresIn, steps[k].draw)
  }

  lemma GrantedIsIssue(steps: seq<Step>, k: nat, token: string, scope: string)
    requires Granted(steps, k, token, scope)
    ensures k < |steps| && steps[k].Issue?
  {
  }

  /**
   Removing a certificate is final for every token issued before: whoever is permitted its scope later
   holds a token issued after the removal, even if the id has been registered again.
   */
  lemma RemovalIsFinal(steps: seq<Step>, j: nat, id: string, token: string, now: int) returns (k: nat)
    requires Salted(steps) && j < |steps| && steps[j] == RemoveSource(id, true)
    requires Permits(After(steps), token, ScopeOf(id), now)
    ensures j < k < |steps| && steps[k].Issue? && steps[k].draw.raw == token && ScopeOf(id) in steps[k].scopes
  {
    hide Permits, After, Alive, Expiry, Succeeds;
    PermitsIff(steps, token, ScopeOf(id), now);
    k :| Granted(steps, k, token, ScopeOf(id)) && Alive(Expiry(steps[k].expiresIn, steps[k].draw), now);
    assert Withdraws(steps[j], steps[k].draw.id, ScopeOf(id));
  }
}
