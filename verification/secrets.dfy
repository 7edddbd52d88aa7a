/** The manager's credential store: scoped, revocable credentials and certificate sources. */
module Secrets {
  import opened Net
  import opened Text
  import Utf8

  /** A salted hash, told apart by what went into it. */
  datatype Digest = Digest(token: string, salt: string)

  datatype Credential = Credential(id: string, name: string, scopes: seq<string>, createdAt: int,
                                   expiresAt: Option<int>, hash: Digest)

  datatype Source = Source(id: string, domain: string)

  datatype Data = Data(salt: string, credentials: seq<Credential>, certificates: seq<Source>)

  const EMPTY: Data := Data("", [], [])

  const CERTIFICATE_SCOPE := "certificates:read:"

  function ScopeOf(id: string): string { CERTIFICATE_SCOPE + id }

  /** What the clock and the random generator hand to an issue: the latest time is the last the clock can show. */
  datatype Draw = Draw(now: int, latest: int, salt: string, raw: string, id: string)

  /** A locked operation; `saved` tells whether writing the state file succeeded. */
  datatype Step =
    | Issue(name: string, scopes: seq<string>, expiresIn: Option<int>, draw: Draw, saved: bool)
    | Revoke(id: string, saved: bool)
    | Register(source: Source, checked: bool, saved: bool)
    | RemoveSource(id: string, saved: bool)

  // ---------- permission ----------

  predicate Alive(expiresAt: Option<int>, now: int) { expiresAt.None? || expiresAt.value > now }

  predicate Allows(c: Credential, hash: Digest, scope: string, now: int) {
    c.hash == hash && scope in c.scopes && Alive(c.expiresAt, now)
  }

  predicate Permits(d: Data, token: string, scope: string, now: int) {
    exists i :: 0 <= i < |d.credentials| && Allows(d.credentials[i], Digest(token, d.salt), scope, now)
  }

  // ---------- operations ----------

  predicate Registered(certificates: seq<Source>, id: string) {
    exists i :: 0 <= i < |certificates| && certificates[i].id == id
  }

  predicate ScopeAccepted(certificates: seq<Source>, scope: string) {
    || scope == "health:read" || scope == "performance:read"
    || (CERTIFICATE_SCOPE <= scope && Registered(certificates, scope[|CERTIFICATE_SCOPE|..]))
  }

  predicate ExpiryAccepted(expiresIn: Option<int>, draw: Draw) {
    expiresIn.Some? ==> expiresIn.value > 0 && draw.now + expiresIn.value <= draw.latest
  }

  function Expiry(expiresIn: Option<int>, draw: Draw): Option<int> {
    if expiresIn.Some? then Some(draw.now + expiresIn.value) else None
  }

  predicate NameAccepted(name: string) { Trim(name) != "" && |Utf8.Encode(name)| <= 80 }

  predicate IssueAccepted(d: Data, s: Step)
    requires s.Issue?
  {
    && NameAccepted(s.name) && 1 <= |s.scopes| <= 32
    && (forall i :: 0 <= i < |s.scopes| ==> ScopeAccepted(d.certificates, s.scopes[i]))
    && ExpiryAccepted(s.expiresIn, s.draw)
  }

  predicate ValidId(id: string) {
    1 <= |id| <= 64 && forall i :: 0 <= i < |id| ==>
      'a' <= id[i] <= 'z' || 'A' <= id[i] <= 'Z' || '0' <= id[i] <= '9' || id[i] == '_' || id[i] == '-'
  }

  /** Whether the operation answers Ok. */
  predicate Succeeds(d: Data, s: Step) {
    && s.saved
    && (s.Issue? ==> IssueAccepted(d, s))
    && (s.Register? ==> ValidId(s.source.id) && s.checked)
  }

  function WithoutCredential(credentials: seq<Credential>, id: string): seq<Credential> {
    if credentials == [] then []
    else (if credentials[0].id != id then [credentials[0]] else []) + WithoutCredential(credentials[1..], id)
  }

  function WithoutSource(certificates: seq<Source>, id: string): seq<Source> {
    if certificates == [] then []
    else (if certificates[0].id != id then [certificates[0]] else []) + WithoutSource(certificates[1..], id)
  }

  function WithoutScope(scopes: seq<string>, scope: string): seq<string> {
    if scopes == [] then [] else (if scopes[0] != scope then [scopes[0]] else []) + WithoutScope(scopes[1..], scope)
  }

  function StripScope(credentials: seq<Credential>, scope: string): (r: seq<Credential>)
    ensures |r| == |credentials|
    ensures forall i :: 0 <= i < |r| ==>
      r[i] == credentials[i].(scopes := WithoutScope(credentials[i].scopes, scope))
  {
    if credentials == [] then []
    else [credentials[0].(scopes := WithoutScope(credentials[0].scopes, scope))] + StripScope(credentials[1..], scope)
  }

  function SaltFor(d: Data, draw: Draw): string { if d.salt == "" then draw.salt else d.salt }

  function IssuedCredential(d: Data, s: Step): Credential
    requires s.Issue?
  {
    Credential(s.draw.id, Trim(s.name), s.scopes, s.draw.now, Expiry(s.expiresIn, s.draw),
               Digest(s.draw.raw, SaltFor(d, s.draw)))
  }

  /** The state file after an operation; a failed one leaves it as it was. */
  function Apply(d: Data, s: Step): Data {
    if !Succeeds(d, s) then d
    else
      match s
      case Issue(_, _, _, draw, _) =>
        d.(salt := SaltFor(d, draw), credentials := d.credentials + [IssuedCredential(d, s)])
      case Revoke(id, _) => d.(credentials := WithoutCredential(d.credentials, id))
      case Register(source, _, _) => d.(certificates := WithoutSource(d.certificates, source.id) + [source])
      case RemoveSource(id, _) =>
        d.(certificates := WithoutSource(d.certificates, id), credentials := StripScope(d.credentials, ScopeOf(id)))
  }

  function After(steps: seq<Step>): Data {
    if steps == [] then EMPTY else Apply(After(steps[..|steps| - 1]), steps[|steps| - 1])
  }

  /** The salt generator never answers the empty string. */
  predicate Salted(steps: seq<Step>) {
    forall i :: 0 <= i < |steps| && steps[i].Issue? ==> steps[i].draw.salt != ""
  }

  // ---------- what the filters keep ----------

  lemma {:induction false} KeptScopes(scopes: seq<string>, scope: string, x: string)
    ensures x in WithoutScope(scopes, scope) <==> x in scopes && x != scope
  {
    if scopes != [] {
      KeptScopes(scopes[1..], scope, x);
      assert scopes == [scopes[0]] + scopes[1..];
    }
  }

  lemma {:induction false} KeptCredentials(credentials: seq<Credential>, id: string, c: Credential)
    ensures c in WithoutCredential(credentials, id) <==> c in credentials && c.id != id
  {
    if credentials != [] {
      KeptCredentials(credentials[1..], id, c);
      assert credentials == [credentials[0]] + credentials[1..];
    }
  }

  lemma {:induction false} KeptSources(certificates: seq<Source>, id: string, c: Source)
    ensures c in WithoutSource(certificates, id) <==> c in certificates && c.id != id
  {
    if certificates != [] {
      KeptSources(certificates[1..], id, c);
      assert certificates == [certificates[0]] + certificates[1..];
    }
  }

  // ---------- the invariant ----------

  ghost predicate UniqueIds(certificates: seq<Source>) {
    forall i, j :: 0 <= i < j < |certificates| ==> certificates[i].id != certificates[j].id
  }

  /** Every certificate scope a credential holds names a registered certificate. */
  ghost predicate ScopesRegistered(d: Data) {
    forall c, id :: c in d.credentials && ScopeOf(id) in c.scopes ==> Registered(d.certificates, id)
  }

  /** Every credential is hashed under the current salt. */
  ghost predicate OneSalt(d: Data) { forall c :: c in d.credentials ==> c.hash.salt == d.salt && d.salt != "" }

  ghost predicate Inv(d: Data) { UniqueIds(d.certificates) && ScopesRegistered(d) && OneSalt(d) }

  lemma {:induction false} UniqueWithout(certificates: seq<Source>, id: string)
    requires UniqueIds(certificates)
    ensures UniqueIds(WithoutSource(certificates, id))
  {
    if certificates != [] {
      var rest := certificates[1..];
      UniqueWithout(rest, id);
      forall c | c in WithoutSource(rest, id) ensures c.id != certificates[0].id {
        KeptSources(rest, id, c);
      }
    }
  }

  lemma RegisteredWithout(certificates: seq<Source>, id: string, other: string)
    requires id != other && Registered(certificates, other)
    ensures Registered(WithoutSource(certificates, id), other)
  {
    var i :| 0 <= i < |certificates| && certificates[i].id == other;
    KeptSources(certificates, id, certificates[i]);
  }

  lemma RegisteredAppend(certificates: seq<Source>, source: Source, id: string)
    ensures Registered(certificates + [source], id) <==> Registered(certificates, id) || source.id == id
  {
    var now := certificates + [source];
    if Registered(certificates, id) {
      var i :| 0 <= i < |certificates| && certificates[i].id == id;
      assert now[i].id == id;
    }
    assert now[|certificates|] == source;
  }

  lemma AcceptedScopeRegistered(certificates: seq<Source>, id: string)
    requires ScopeAccepted(certificates, ScopeOf(id))
    ensures Registered(certificates, id)
  {
    var scope := ScopeOf(id);
    assert scope[..|CERTIFICATE_SCOPE|] == CERTIFICATE_SCOPE;
    assert scope[0] == 'c' && "health:read"[0] == 'h' && "performance:read"[0] == 'p';
    assert scope[|CERTIFICATE_SCOPE|..] == id;
  }

  lemma IssueKeepsInv(d: Data, s: Step)
    requires Inv(d) && s.Issue? && s.draw.salt != "" && Succeeds(d, s)
    ensures Inv(Apply(d, s))
  {
    hide NameAccepted, ExpiryAccepted, Registered, ScopeAccepted;
    forall id | ScopeOf(id) in s.scopes ensures Registered(d.certificates, id) {
      AcceptedScopeRegistered(d.certificates, id);
    }
  }

  lemma RegisterKeepsInv(d: Data, source: Source)
    requires Inv(d)
    ensures Inv(d.(certificates := WithoutSource(d.certificates, source.id) + [source]))
  {
    hide Registered;
    var kept := WithoutSource(d.certificates, source.id);
    UniqueWithout(d.certificates, source.id);
    forall c | c in kept ensures c.id != source.id {
      KeptSources(d.certificates, source.id, c);
    }
    forall id | Registered(d.certificates, id) ensures Registered(kept + [source], id) {
      RegisteredAppend(kept, source, id);
      if id != source.id {
        RegisteredWithout(d.certificates, source.id, id);
      }
    }
  }

  lemma RemoveKeepsInv(d: Data, id: string)
    requires Inv(d)
    ensures Inv(d.(certificates := WithoutSource(d.certificates, id),
      credentials := StripScope(d.credentials, ScopeOf(id))))
  {
    hide Registered, UniqueIds;
    UniqueWithout(d.certificates, id);
    var now := StripScope(d.credentials, ScopeOf(id));
    forall c, other | c in now && ScopeOf(other) in c.scopes
      ensures Registered(WithoutSource(d.certificates, id), other)
    {
      var i :| 0 <= i < |now| && now[i] == c;
      KeptScopes(d.credentials[i].scopes, ScopeOf(id), ScopeOf(other));
      assert d.credentials[i] in d.credentials;
      RegisteredWithout(d.certificates, id, other);
    }
  }

  lemma StepKeepsInv(d: Data, s: Step)
    requires Inv(d) && (s.Issue? ==> s.draw.salt != "")
    ensures Inv(Apply(d, s))
  {
    if Succeeds(d, s) {
      match s
      case Issue(_, _, _, _, _) => IssueKeepsInv(d, s);
      case Register(source, _, _) => RegisterKeepsInv(d, source);
      case RemoveSource(id, _) => RemoveKeepsInv(d, id);
      case Revoke(id, _) =>
        forall c | c in WithoutCredential(d.credentials, id) ensures c in d.credentials {
          KeptCredentials(d.credentials, id, c);
        }
    }
  }

  /** Every reachable state: certificate ids are unique and every certificate scope names a registered one. */
  lemma {:induction false} ReachableInv(steps: seq<Step>)
    requires Salted(steps)
    ensures Inv(After(steps))
  {
    hide Inv, Apply;
    if steps == [] {
      EmptyInv();
    } else {
      ReachableInv(steps[..|steps| - 1]);
      StepKeepsInv(After(steps[..|steps| - 1]), steps[|steps| - 1]);
    }
  }

  lemma EmptyInv()
    ensures Inv(EMPTY)
  {
  }
}
