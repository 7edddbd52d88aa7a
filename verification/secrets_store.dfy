/** The credential store as it runs: load, change, save, under one lock. */
module SecretsStore {
  import opened Net
  import opened Text
  import opened Secrets
  import Utf8

  /** The scope check's loop. */
  method CheckScopes(certificates: seq<Source>, scopes: seq<string>) returns (ok: bool)
    ensures ok <==> forall i :: 0 <= i < |scopes| ==> ScopeAccepted(certificates, scopes[i])
  {
    for n := 0 to |scopes|
      invariant forall i :: 0 <= i < n ==> ScopeAccepted(certificates, scopes[i])
    {
      var scope := scopes[n];
      if scope != "health:read" && scope != "performance:read" {
        if !(CERTIFICATE_SCOPE <= scope) || !Registered(certificates, scope[|CERTIFICATE_SCOPE|..]) {
          return false;
        }
      }
    }
    ok := true;
  }

  /** Taking a removed certificate's scope out of every credential, one after the other. */
  method DropScope(credentials: seq<Credential>, scope: string) returns (r: seq<Credential>)
    ensures r == StripScope(credentials, scope)
  {
    r := credentials;
    for n := 0 to |credentials|
      invariant |r| == |credentials|
      invariant forall i :: 0 <= i < n ==> r[i] == credentials[i].(scopes := WithoutScope(credentials[i].scopes, scope))
      invariant forall i :: n <= i < |r| ==> r[i] == credentials[i]
    {
      r := r[n := r[n].(scopes := WithoutScope(r[n].scopes, scope))];
    }
  }

  class Store {
    /** What the state file holds. */
    var file: Data

    constructor ()
      ensures file == EMPTY
    {
      file := EMPTY;
    }

    method Save(data: Data, saved: bool)
      modifies this
      ensures file == if saved then data else old(file)
    {
      if saved {
        file := data;
      }
    }

    method PermitsNow(token: string, scope: string, now: int) returns (ok: bool)
      ensures ok == Permits(file, token, scope, now)
    {
      var hash := Digest(token, file.salt);
      for n := 0 to |file.credentials|
        invariant forall i :: 0 <= i < n ==> !Allows(file.credentials[i], hash, scope, now)
      {
        if Allows(file.credentials[n], hash, scope, now) {
          return true;
        }
      }
      ok := false;
    }

    method IssueCredential(name: string, scopes: seq<string>, expiresIn: Option<int>, draw: Draw, saved: bool)
      returns (ok: bool)
      modifies this
      ensures var s := Issue(name, scopes, expiresIn, draw, saved);
        file == Apply(old(file), s) && ok == Succeeds(old(file), s)
    {
      hide Trim, Utf8.Encode, Registered;
      var data := file;
      if Trim(name) == "" || |Utf8.Encode(name)| > 80 {
        return false;
      }
      if scopes == [] || |scopes| > 32 {
        return false;
      }
      var accepted := CheckScopes(data.certificates, scopes);
      if !accepted {
        return false;
      }
      var expiresAt := None;
      if expiresIn.Some? {
        if expiresIn.value <= 0 || draw.now + expiresIn.value > draw.latest {
          return false;
        }
        expiresAt := Some(draw.now + expiresIn.value);
      }
      if data.salt == "" {
        data := data.(salt := draw.salt);
      }
      var credential := Credential(draw.id, Trim(name), scopes, draw.now, expiresAt, Digest(draw.raw, data.salt));
      Save(data.(credentials := data.credentials + [credential]), saved);
      ok := saved;
    }

    method RevokeCredential(id: string, saved: bool) returns (ok: bool)
      modifies this
      ensures file == Apply(old(file), Revoke(id, saved)) && ok == Succeeds(old(file), Revoke(id, saved))
    {
      Save(file.(credentials := WithoutCredential(file.credentials, id)), saved);
      ok := saved;
    }

    method RegisterSource(source: Source, checked: bool, saved: bool) returns (ok: bool)
      modifies this
      ensures var s := Register(source, checked, saved);
        file == Apply(old(file), s) && ok == Succeeds(old(file), s)
    {
      if !ValidId(source.id) || !checked {
        return false;
      }
      Save(file.(certificates := WithoutSource(file.certificates, source.id) + [source]), saved);
      ok := saved;
    }

    method Remove(id: string, saved: bool) returns (ok: bool)
      modifies this
      ensures file == Apply(old(file), RemoveSource(id, saved)) && ok == Succeeds(old(file), RemoveSource(id, saved))
    {
      var credentials := DropScope(file.credentials, ScopeOf(id));
      Save(file.(certificates := WithoutSource(file.certificates, id), credentials := credentials), saved);
      ok := saved;
    }
  }
}
