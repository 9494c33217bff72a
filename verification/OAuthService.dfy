/** The OAuth provider's operations, step by step (plugins/oauth-provider/service.go), and what
    each of them keeps: owners and scopes agree along every token's descent, and, while updates
    succeed, a code has a single unrevoked descendant. */
module OAuthService {
  import opened Wrappers
  import opened Identifiers
  import opened OAuth
  import opened OAuthLaws
  import opened OAuthRuns
  import opened OAuthExact

  /** The scope-check loops. */
  method CheckScopes(scopes: seq<string>, allowed: seq<string>) returns (ok: bool)
    ensures ok == Within(scopes, allowed)
  {
    for i := 0 to |scopes|
      invariant Within(scopes[..i], allowed)
    {
      if scopes[i] !in allowed {
        return false;
      }
    }
    ok := true;
  }

  class Provider {
    const cfg: Config
    var db: State
    var now: int

    /** Every provider rotates, whatever its options. */
    ghost predicate Valid()
      reads this
    {
      Inv(db) && cfg.rotate
    }

    constructor (options: Config, start: int)
      ensures Valid() && Lineage(db)
      ensures cfg == WithDefaults(options) && db == EMPTY && now == start
    {
      cfg, db, now := WithDefaults(options), EMPTY, start;
    }

    method RegisterClient(confidential: bool, redirectURIs: seq<string>, grants: seq<string>, allowed: seq<string>)
      returns (reply: Reply)
      requires Valid()
      modifies this`db
      ensures (db, reply) == Register(old(db), confidential, redirectURIs, grants, allowed)
      ensures Valid() && (Lineage(old(db)) ==> Lineage(db))
    {
      hide Inv, Lineage;
      RegisterKeeps(db, confidential, redirectURIs, grants, allowed);
      if redirectURIs == [] && !confidential {
        return Failed(InvalidRequest);
      }
      var id, secret := db.next, 0;
      var secretHash: Option<Hash> := None;
      if confidential {
        secret := db.next + 1;
        secretHash := Some(Hash(secret));
      }
      var granted := grants;
      if granted == [] {
        granted := ["authorization_code", "refresh_token"];
      }
      var c := Client(confidential, secretHash, redirectURIs, granted, allowed, true);
      db := db.(clients := db.clients[id := c], next := db.next + 2);
      reply := Registered(id, secret);
    }

    method AuthorizeRequest(a: Authorization) returns (reply: Reply)
      requires Valid()
      modifies this`db
      ensures (db, reply) == Authorize(cfg, old(db), a, now)
      ensures Valid() && (Lineage(old(db)) ==> Lineage(db))
    {
      hide Inv, Lineage;
      AuthorizeKeeps(cfg, db, a, now);
      if a.clientId == 0 || a.redirectURI == "" {
        return Failed(InvalidRequest);
      }
      if a.responseType != "code" {
        return Failed(UnsupportedResponseType);
      }
      if a.clientId !in db.clients {
        return Failed(InvalidClient);
      }
      var c := db.clients[a.clientId];
      if !c.active {
        return Failed(ClientRevoked);
      }
      if a.redirectURI !in c.redirectURIs {
        return Failed(RedirectURIMismatch);
      }
      if |a.scopes| > 0 && |c.allowed| > 0 {
        var ok := CheckScopes(a.scopes, c.allowed);
        if !ok {
          return Failed(InvalidScope);
        }
      }
      if cfg.requirePKCE && !c.confidential && a.challenge == "" {
        return Failed(PKCERequired);
      }
      if a.challenge != "" {
        if a.challengeMethod == "plain" && !cfg.allowPlain {
          return Failed(InvalidPKCE);
        }
        if a.challengeMethod != "S256" && a.challengeMethod != "plain" {
          return Failed(InvalidPKCE);
        }
      }
      if !a.consent {
        return Failed(ConsentRequired);
      }
      var raw := db.next;
      var code := Code(a.clientId, a.userId, a.redirectURI, a.scopes, a.challenge, a.challengeMethod,
                       now + cfg.codeTTL, None);
      db := db.(codes := db.codes[Hash(raw) := code], next := raw + 1);
      reply := CodeIssued(raw);
    }

    method IssueBoth(client: Id, user: Id, scopes: seq<string>, code: Hash, broken: set<Write>) returns (reply: Reply)
      modifies this`db
      ensures (db, reply) == IssueTokens(cfg, old(db), client, user, scopes, code, now, broken)
    {
      var a := db.next;
      if InsertAccess in broken {
        return Failed(StoreFailure);
      }
      db := db.(access := db.access[Hash(a) := Grant(client, user, scopes, now, now + cfg.accessTTL, None)],
                origin := db.origin[Hash(a) := code], next := a + 1);
      var r := db.next;
      if InsertRefresh in broken {
        return Failed(StoreFailure);
      }
      db := db.(refresh := db.refresh[Hash(r) := Grant(client, user, scopes, now, now + cfg.refreshTTL, None)],
                origin := db.origin[Hash(r) := code], next := r + 1);
      reply := Issued(a, r, scopes);
    }

    method ExchangeCode(t: TokenRequest, broken: set<Write>) returns (reply: Reply)
      requires Valid()
      modifies this`db
      ensures (db, reply) == CodeGrant(cfg, old(db), t, now, broken)
      ensures Valid() && (Lineage(old(db)) ==> Lineage(db))
      ensures !Spent(old(db), Hash(t.code)) && Spent(db, Hash(t.code)) <==> CodeRefusal(old(db), t, now).None?
      ensures reply.Issued? ==>
        && CodeRefusal(old(db), t, now).None?
        && db.codes[Hash(t.code)].clientId == t.clientId && db.codes[Hash(t.code)].redirectURI == t.redirectURI
      ensures reply.Issued? <==>
        MayExchange(cfg, old(db), t, now) && InsertAccess !in broken && InsertRefresh !in broken
    {
      hide Inv, Lineage, MayExchange, IsNew;
      CodeGrantKeeps(cfg, db, t, now, broken);
      CodeGrantSpends(cfg, db, t, now, broken);
      ExchangedExactlyWhen(cfg, db, t, now, broken);
      if t.code == 0 || t.clientId == 0 || t.redirectURI == "" {
        return Failed(InvalidRequest);
      }
      if t.clientId !in db.clients {
        return Failed(InvalidClient);
      }
      var c := db.clients[t.clientId];
      if !c.active {
        return Failed(ClientRevoked);
      }
      if "authorization_code" !in c.grants {
        return Failed(UnauthorizedClient);
      }
      if c.confidential && !SecretMatches(c, t.secret) {
        return Failed(InvalidClient);
      }
      var h := Hash(t.code);
      if h !in db.codes {
        return Failed(InvalidGrant);
      }
      var code := db.codes[h];
      if code.consumedAt.Some? || code.expiresAt <= now {
        return Failed(InvalidGrant);
      }
      db := db.(codes := db.codes[h := code.(consumedAt := Some(now))]);
      if code.clientId != t.clientId || code.redirectURI != t.redirectURI {
        return Failed(InvalidGrant);
      }
      if code.challenge != "" {
        var e := VerifyPKCE(cfg, t.verifier, code.challenge, code.challengeMethod);
        if e.Some? {
          return Failed(e.value);
        }
      } else if !c.confidential {
        return Failed(PKCERequired);
      }
      reply := IssueBoth(t.clientId, code.userId, code.scopes, h, broken);
    }

    method ClientCredentials(t: TokenRequest, broken: set<Write>) returns (reply: Reply)
      requires Valid()
      modifies this`db
      ensures (db, reply) == ClientCredentialsGrant(cfg, old(db), t, now, broken)
      ensures Valid() && (Lineage(old(db)) ==> Lineage(db))
    {
      hide Inv, Lineage;
      CredentialsKeep(cfg, db, t, now, broken);
      if t.clientId == 0 || t.secret == 0 {
        return Failed(InvalidRequest);
      }
      if t.clientId !in db.clients {
        return Failed(InvalidClient);
      }
      var c := db.clients[t.clientId];
      if !c.active {
        return Failed(ClientRevoked);
      }
      if !c.confidential {
        return Failed(UnauthorizedClient);
      }
      if "client_credentials" !in c.grants {
        return Failed(UnauthorizedClient);
      }
      if !SecretMatches(c, t.secret) {
        return Failed(InvalidClient);
      }
      var scopes := c.allowed;
      if |t.scopes| > 0 {
        var ok := CheckScopes(t.scopes, c.allowed);
        if !ok {
          return Failed(InvalidScope);
        }
        scopes := t.scopes;
      }
      if InsertAccess in broken {
        return Failed(StoreFailure);
      }
      var a := db.next;
      db := db.(access := db.access[Hash(a) := Grant(t.clientId, 0, scopes, now, now + cfg.accessTTL, None)],
                next := a + 1);
      reply := AccessOnly(a, scopes);
    }

    method Refresh(t: TokenRequest, broken: set<Write>) returns (reply: Reply)
      requires Valid()
      modifies this`db
      ensures (db, reply) == RefreshGrant(cfg, old(db), t, now, broken)
      ensures Valid() && (Lineage(old(db)) && UpdateRefresh !in broken ==> Lineage(db))
      ensures reply.Issued? && Lineage(old(db)) ==> (Lineage(db) <==> UpdateRefresh !in broken)
      ensures reply.Issued? <==> MayRefresh(old(db), t, now) && InsertAccess !in broken && InsertRefresh !in broken
    {
      hide Inv, Lineage, MayRefresh, IsNew;
      RefreshGrantKeeps(cfg, db, t, now, broken);
      RefreshedExactlyWhen(cfg, db, t, now, broken);
      if Lineage(db) && RefreshGrant(cfg, db, t, now, broken).1.Issued? {
        RefreshLineage(cfg, db, t, now, broken);
      }
      if t.refreshToken == 0 || t.clientId == 0 {
        return Failed(InvalidRequest);
      }
      if t.clientId !in db.clients {
        return Failed(InvalidClient);
      }
      var c := db.clients[t.clientId];
      if !c.active {
        return Failed(ClientRevoked);
      }
      if c.confidential && !SecretMatches(c, t.secret) {
        return Failed(InvalidClient);
      }
      var h := Hash(t.refreshToken);
      if h !in db.refresh {
        return Failed(InvalidGrant);
      }
      var r := db.refresh[h];
      if r.revokedAt.Some? || r.expiresAt <= now || r.clientId != t.clientId {
        return Failed(InvalidGrant);
      }
      var scopes := r.scopes;
      if |t.scopes| > 0 {
        var ok := CheckScopes(t.scopes, r.scopes);
        if !ok {
          return Failed(InvalidScope);
        }
        scopes := t.scopes;
      }
      if cfg.rotate {
        if UpdateRefresh !in broken {
          db := db.(refresh := db.refresh[h := r.(revokedAt := Some(now))]);
        }
      }
      reply := IssueBoth(t.clientId, r.userId, scopes, if h in db.origin then db.origin[h] else h, broken);
    }

    method TokenEndpoint(t: TokenRequest, broken: set<Write>) returns (reply: Reply)
      requires Valid()
      modifies this`db
      ensures (db, reply) == Token(cfg, old(db), t, now, broken)
      ensures Valid() && (Lineage(old(db)) && UpdateRefresh !in broken ==> Lineage(db))
    {
      hide CodeGrant, ClientCredentialsGrant, RefreshGrant, Inv, Lineage, Spent, CodeRefusal, MayExchange, MayRefresh;
      if t.grantType == "authorization_code" {
        reply := ExchangeCode(t, broken);
      } else if t.grantType == "client_credentials" {
        reply := ClientCredentials(t, broken);
      } else if t.grantType == "refresh_token" {
        reply := Refresh(t, broken);
      } else {
        reply := Failed(UnsupportedGrantType);
      }
    }

    method Deactivate(id: Id, broken: set<Write>) returns (reply: Reply)
      requires Valid()
      modifies this`db
      ensures (db, reply) == RevokeClient(old(db), id, now, broken)
      ensures Valid() && (Lineage(old(db)) ==> Lineage(db))
      ensures reply.Done? ==> Out(db, id, (if UpdateAccess in broken then Unrevoked(old(db).access, id) else {})
        + (if UpdateRefresh in broken then Unrevoked(old(db).refresh, id) else {}))
    {
      hide Inv, Lineage, Out;
      ClientKeeps(db, id, now, broken);
      if RevokeClient(db, id, now, broken).1.Done? {
        RevokedClientIsOut(db, id, now, broken);
      }
      if id == 0 {
        return Failed(InvalidRequest);
      }
      if id !in db.clients {
        return Failed(InvalidClient);
      }
      db := db.(clients := db.clients[id := db.clients[id].(active := false)]);
      if UpdateAccess !in broken {
        db := db.(access := RevokeWhere(db.access, OfClient(db.access, id), now));
      }
      if UpdateRefresh !in broken {
        db := db.(refresh := RevokeWhere(db.refresh, OfClient(db.refresh, id), now));
      }
      reply := Done;
    }

    method RevokeEither(token: Id) returns (reply: Reply)
      requires Valid()
      modifies this`db
      ensures (db, reply) == RevokeToken(old(db), token, now)
      ensures Valid() && (Lineage(old(db)) ==> Lineage(db))
    {
      hide Inv, Lineage;
      RevokingKeeps(db, {Hash(token)}, {Hash(token)}, now);
      if token == 0 {
        return Failed(InvalidRequest);
      }
      db := db.(access := RevokeWhere(db.access, {Hash(token)}, now));
      db := db.(refresh := RevokeWhere(db.refresh, {Hash(token)}, now));
      reply := Done;
    }

    method IntrospectToken(token: Id) returns (g: Option<Grant>)
      ensures g == Introspect(db, token, now)
    {
      if token == 0 {
        return None;
      }
      var h := Hash(token);
      if h in db.access {
        var a := db.access[h];
        if a.revokedAt.Some? || a.expiresAt <= now {
          return None;
        }
        return Some(a);
      }
      if h in db.refresh {
        var r := db.refresh[h];
        if r.revokedAt.Some? || r.expiresAt <= now {
          return None;
        }
        return Some(r);
      }
      g := None;
    }

    /** Any sequence of requests: the provider is the state machine whose runs are studied. */
    method Serve(steps: seq<Step>)
      requires Valid()
      modifies this
      ensures Valid() && (db, now) == Run(cfg, old(db), old(now), steps)
      ensures Lineage(old(db))
        && (forall i :: 0 <= i < |steps| && steps[i].op.DoToken? ==> UpdateRefresh !in steps[i].op.broken)
        ==> Lineage(db)
    {
      hide Apply, Inv, Lineage;
      ghost var st, t := db, now;
      for i := 0 to |steps|
        invariant Valid() && Run(cfg, db, now, steps[i..]) == Run(cfg, st, t, steps)
        invariant Lineage(st)
          && (forall j :: 0 <= j < i && steps[j].op.DoToken? ==> UpdateRefresh !in steps[j].op.broken)
          ==> Lineage(db)
      {
        assert steps[i..][0] == steps[i] && steps[i..][1..] == steps[i + 1..];
        now := now + steps[i].pause;
        Handle(steps[i].op);
      }
    }

    method Handle(op: Op)
      requires Valid()
      modifies this`db
      ensures Valid() && db == Apply(cfg, old(db), now, op).0
      ensures Lineage(old(db)) && (op.DoToken? ==> UpdateRefresh !in op.broken) ==> Lineage(db)
    {
      hide Token, Register, Authorize, RevokeClient, RevokeToken, Introspect, Inv, Lineage, Out, Unrevoked;
      match op
      case DoRegister(confidential, redirectURIs, grants, allowed) =>
        var _ := RegisterClient(confidential, redirectURIs, grants, allowed);
      case DoAuthorize(request) =>
        var _ := AuthorizeRequest(request);
      case DoToken(t, broken) =>
        var _ := TokenEndpoint(t, broken);
      case DoRevokeClient(id, broken) =>
        var _ := Deactivate(id, broken);
      case DoRevokeToken(token) =>
        var _ := RevokeEither(token);
      case DoIntrospect(token) =>
        var _ := IntrospectToken(token);
    }
  }
}
