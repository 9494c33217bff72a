/** What each OAuth request asks for, condition by condition, and exactly when it is granted. */
module OAuthExact {
  import opened Wrappers
  import opened Identifiers
  import opened OAuth
  import opened OAuthLaws
  import opened OAuthRuns

  // ---------------------------------------------------------------- conditions

  /** The client exists, is active and has proved who it is, if it can. */
  predicate Authentic(st: State, client: Id, secret: Id) {
    && client in st.clients && st.clients[client].active
    && (st.clients[client].confidential ==> st.clients[client].secret == Some(Hash(secret)))
  }

  /** RFC 7636, sections 4.1 and 4.6: the verifier is of a permitted length and is what the
      challenge was made from. */
  predicate Proves(cfg: Config, verifier: string, challenge: string, challengeMethod: string) {
    && 43 <= |verifier| <= 128
    && ((challengeMethod == "S256" && cfg.s256(verifier) == challenge)
        || (challengeMethod == "plain" && cfg.allowPlain && verifier == challenge))
  }

  /** Whoever holds a code without a challenge must be a confidential client, others must prove
      that they asked for it. */
  predicate Holds(cfg: Config, confidential: bool, verifier: string, challenge: string, challengeMethod: string) {
    if challenge == "" then confidential else Proves(cfg, verifier, challenge, challengeMethod)
  }

  predicate Sublist(scopes: seq<string>, allowed: seq<string>) {
    forall s :: s in scopes ==> s in allowed
  }

  /** An access or refresh token as it is issued. */
  predicate IsNew(rows: map<Hash, Grant>, token: Id, client: Id, user: Id, scopes: seq<string>, now: int, ttl: int) {
    && Hash(token) in rows
    && var g := rows[Hash(token)];
    && g.clientId == client && g.userId == user && g.scopes == scopes
    && g.createdAt == now && g.expiresAt == now + ttl && g.revokedAt == None
  }

  // ---------------------------------------------------------------- configuration and clients

  /** Lifetimes are those configured, if positive, else five minutes, an hour and thirty days in
      seconds; PKCE and rotation are always on. */
  lemma DefaultsExactly(cfg: Config)
    ensures var d := WithDefaults(cfg);
      && d.requirePKCE && d.rotate && d.allowPlain == cfg.allowPlain && d.s256 == cfg.s256
      && d.codeTTL > 0 && (d.codeTTL == cfg.codeTTL || (cfg.codeTTL <= 0 && d.codeTTL == 5 * 60))
      && d.accessTTL > 0 && (d.accessTTL == cfg.accessTTL || (cfg.accessTTL <= 0 && d.accessTTL == 60 * 60))
      && d.refreshTTL > 0
      && (d.refreshTTL == cfg.refreshTTL || (cfg.refreshTTL <= 0 && d.refreshTTL == 30 * 24 * 60 * 60))
  {
  }

  /** A client is registered exactly if it is confidential or has a redirect URI; it starts
      active, and it can prove who it is exactly if it is confidential, with its secret. */
  lemma RegisteredExactlyWhen(st: State, confidential: bool, redirectURIs: seq<string>, grants: seq<string>,
                              allowed: seq<string>)
    requires Inv(st) && 0 < st.next
    ensures var (after, reply) := Register(st, confidential, redirectURIs, grants, allowed);
      && (reply.Registered? <==> confidential || redirectURIs != [])
      && (reply.Registered? ==>
          && reply.client !in st.clients && after.clients.Keys == st.clients.Keys + {reply.client}
          && (forall c :: c in st.clients ==> after.clients[c] == st.clients[c])
          && after == st.(clients := after.clients, next := after.next) && st.next < after.next
          && var c := after.clients[reply.client];
          && c.active && c.confidential == confidential && c.redirectURIs == redirectURIs && c.allowed == allowed
          && c.grants == (if grants == [] then ["authorization_code", "refresh_token"] else grants)
          && (reply.secret != 0 <==> confidential)
          && forall secret :: Authentic(after, reply.client, secret) <==> (confidential ==> secret == reply.secret))
      && (!reply.Registered? ==> after == st && reply.Failed?)
  {
    hide CodesOk, AccessOk, RefreshOk;
  }

  // ---------------------------------------------------------------- authorization

  /** RFC 6749, section 4.1.1: a code is issued exactly to an active client for one of its own
      redirect URIs, within its scopes, with consent and with an acceptable challenge; public
      clients need one, unless PKCE is not required. */
  lemma AuthorizedExactlyWhen(cfg: Config, st: State, a: Authorization, now: int)
    ensures var (after, reply) := Authorize(cfg, st, a, now);
      && (reply.CodeIssued? <==>
          && a.clientId != 0 && a.clientId in st.clients && st.clients[a.clientId].active
          && a.responseType == "code" && a.redirectURI != "" && a.redirectURI in st.clients[a.clientId].redirectURIs
          && (st.clients[a.clientId].allowed == [] || Sublist(a.scopes, st.clients[a.clientId].allowed))
          && (a.challenge == "" ==> !cfg.requirePKCE || st.clients[a.clientId].confidential)
          && (a.challenge != "" ==> a.challengeMethod == "S256" || (a.challengeMethod == "plain" && cfg.allowPlain))
          && a.consent)
      && (reply.CodeIssued? ==>
          && reply.code == st.next && after.codes.Keys == st.codes.Keys + {Hash(reply.code)}
          && (forall h :: h in st.codes && h != Hash(reply.code) ==> after.codes[h] == st.codes[h])
          && var code := after.codes[Hash(reply.code)];
          && code.clientId == a.clientId && code.userId == a.userId && code.redirectURI == a.redirectURI
          && code.scopes == a.scopes && code.challenge == a.challenge && code.challengeMethod == a.challengeMethod
          && code.expiresAt == now + cfg.codeTTL && code.consumedAt == None
          && after.access == st.access && after.refresh == st.refresh && after.clients == st.clients)
      && (!reply.CodeIssued? ==> after == st && reply.Failed?)
  {
    if a.clientId in st.clients {
      var allowed := st.clients[a.clientId].allowed;
      assert Within(a.scopes, allowed) <==> Sublist(a.scopes, allowed);
    }
  }

  // ---------------------------------------------------------------- tokens

  lemma TokensAreNew(cfg: Config, st: State, client: Id, user: Id, scopes: seq<string>, code: Hash, now: int,
                     broken: set<Write>)
    requires KeysOk(st)
    ensures var (after, reply) := IssueTokens(cfg, st, client, user, scopes, code, now, broken);
      && (reply.Issued? <==> InsertAccess !in broken && InsertRefresh !in broken)
      && (reply.Issued? ==>
          && reply.scopes == scopes && reply.access != reply.refresh
          && IsNew(after.access, reply.access, client, user, scopes, now, cfg.accessTTL)
          && IsNew(after.refresh, reply.refresh, client, user, scopes, now, cfg.refreshTTL)
          && after.access.Keys == st.access.Keys + {Hash(reply.access)}
          && after.refresh.Keys == st.refresh.Keys + {Hash(reply.refresh)}
          && Hash(reply.access) !in st.access && Hash(reply.refresh) !in st.refresh)
      && (!reply.Issued? ==> reply == Failed(StoreFailure) && after.refresh == st.refresh)
  {
  }

  lemma OldTokensStay(cfg: Config, st: State, client: Id, user: Id, scopes: seq<string>, code: Hash, now: int,
                      broken: set<Write>)
    requires KeysOk(st)
    ensures var after := IssueTokens(cfg, st, client, user, scopes, code, now, broken).0;
      && (forall h :: h in st.access ==> h in after.access && after.access[h] == st.access[h])
      && (forall h :: h in st.refresh ==> h in after.refresh && after.refresh[h] == st.refresh[h])
      && after.clients == st.clients && after.codes == st.codes
  {
  }

  /** The conditions for exchanging a code. */
  predicate MayExchange(cfg: Config, st: State, t: TokenRequest, now: int) {
    && t.code != 0 && t.clientId != 0 && t.redirectURI != ""
    && Authentic(st, t.clientId, t.secret) && "authorization_code" in st.clients[t.clientId].grants
    && Hash(t.code) in st.codes
    && var code := st.codes[Hash(t.code)];
    && code.consumedAt.None? && now < code.expiresAt
    && code.clientId == t.clientId && code.redirectURI == t.redirectURI
    && Holds(cfg, st.clients[t.clientId].confidential, t.verifier, code.challenge, code.challengeMethod)
  }

  /** A code is exchanged exactly by the client and redirect URI it was issued for, unspent and
      unexpired, with the verifier its challenge was made from; the tokens are for the user and
      the scopes of the code. */
  lemma ExchangedExactlyWhen(cfg: Config, st: State, t: TokenRequest, now: int, broken: set<Write>)
    requires Inv(st)
    ensures var (after, reply) := CodeGrant(cfg, st, t, now, broken);
      && (reply.Issued? <==> MayExchange(cfg, st, t, now) && InsertAccess !in broken && InsertRefresh !in broken)
      && (reply.Issued? ==>
          var code := st.codes[Hash(t.code)];
          && reply.scopes == code.scopes
          && IsNew(after.access, reply.access, t.clientId, code.userId, code.scopes, now, cfg.accessTTL)
          && IsNew(after.refresh, reply.refresh, t.clientId, code.userId, code.scopes, now, cfg.refreshTTL)
          && after.codes == st.codes[Hash(t.code) := code.(consumedAt := Some(now))])
      && (!MayExchange(cfg, st, t, now) ==> after.access == st.access && after.refresh == st.refresh)
  {
    hide CodeRefusal, CodeMismatch, MayExchange, IsNew, IssueTokens, Inv;
    MayExchangeExactly(cfg, st, t, now);
    if CodeRefusal(st, t, now).None? {
      PassedMeansKnown(st, t, now);
      var h := Hash(t.code);
      var consumed := ConsumeCode(st, h, now);
      ConsumeKeeps(st, h, now);
      InvHasKeys(consumed);
      TokensAreNew(cfg, consumed, t.clientId, st.codes[h].userId, st.codes[h].scopes, h, now, broken);
      OldTokensStay(cfg, consumed, t.clientId, st.codes[h].userId, st.codes[h].scopes, h, now, broken);
    }
  }

  lemma MayExchangeExactly(cfg: Config, st: State, t: TokenRequest, now: int)
    ensures MayExchange(cfg, st, t, now) <==>
      && CodeRefusal(st, t, now).None?
      && t.clientId in st.clients && Hash(t.code) in st.codes
      && CodeMismatch(cfg, st.clients[t.clientId], st.codes[Hash(t.code)], t).None?
    ensures MayExchange(cfg, st, t, now) ==> st.codes[Hash(t.code)].clientId == t.clientId
  {
  }

  /** The conditions for an access token of the client's own. */
  predicate MayUseCredentials(st: State, t: TokenRequest) {
    && t.clientId != 0 && t.secret != 0 && Authentic(st, t.clientId, t.secret)
    && st.clients[t.clientId].confidential && "client_credentials" in st.clients[t.clientId].grants
    && Sublist(t.scopes, st.clients[t.clientId].allowed)
  }

  /** RFC 6749, section 4.4: an access token, without a user, exactly for an active confidential
      client with this grant that knows its secret and asks for scopes of its own. */
  lemma CredentialsExactlyWhen(cfg: Config, st: State, t: TokenRequest, now: int, broken: set<Write>)
    ensures var (after, reply) := ClientCredentialsGrant(cfg, st, t, now, broken);
      && (reply.AccessOnly? <==> MayUseCredentials(st, t) && InsertAccess !in broken)
      && (reply.AccessOnly? ==>
          && reply.scopes == (if t.scopes == [] then st.clients[t.clientId].allowed else t.scopes)
          && IsNew(after.access, reply.access, t.clientId, 0, reply.scopes, now, cfg.accessTTL)
          && after.access.Keys == st.access.Keys + {Hash(reply.access)} && reply.access == st.next
          && (forall h :: h in st.access && h != Hash(reply.access) ==> after.access[h] == st.access[h])
          && after.refresh == st.refresh && after.codes == st.codes && after.clients == st.clients)
      && (!reply.AccessOnly? ==> after == st && reply.Failed?)
  {
    if t.clientId in st.clients {
      var allowed := st.clients[t.clientId].allowed;
      assert Within(t.scopes, allowed) <==> Sublist(t.scopes, allowed);
    }
  }

  /** The conditions for a refresh. */
  predicate MayRefresh(st: State, t: TokenRequest, now: int) {
    && t.refreshToken != 0 && t.clientId != 0 && Authentic(st, t.clientId, t.secret)
    && Hash(t.refreshToken) in st.refresh
    && var r := st.refresh[Hash(t.refreshToken)];
    && r.revokedAt.None? && now < r.expiresAt && r.clientId == t.clientId && Sublist(t.scopes, r.scopes)
  }

  /** RFC 6749, section 6: a refresh succeeds exactly with an unrevoked, unexpired token of the
      client itself and scopes among those of the token. */
  lemma RefreshedExactlyWhen(cfg: Config, st: State, t: TokenRequest, now: int, broken: set<Write>)
    requires Inv(st)
    ensures var (after, reply) := RefreshGrant(cfg, st, t, now, broken);
      && (reply.Issued? <==> MayRefresh(st, t, now) && InsertAccess !in broken && InsertRefresh !in broken)
      && (reply.Issued? ==>
          var r := st.refresh[Hash(t.refreshToken)];
          && reply.scopes == (if t.scopes == [] then r.scopes else t.scopes)
          && IsNew(after.access, reply.access, t.clientId, r.userId, reply.scopes, now, cfg.accessTTL)
          && IsNew(after.refresh, reply.refresh, t.clientId, r.userId, reply.scopes, now, cfg.refreshTTL)
          && Hash(t.refreshToken) in after.refresh
          && after.refresh[Hash(t.refreshToken)].revokedAt
            == (if cfg.rotate && UpdateRefresh !in broken then Some(now) else None))
      && (!MayRefresh(st, t, now) ==> after == st && reply.Failed?)
  {
    if Hash(t.refreshToken) in st.refresh {
      var r := st.refresh[Hash(t.refreshToken)];
      assert Within(t.scopes, r.scopes) <==> Sublist(t.scopes, r.scopes);
    }
    if RefreshRefusal(st, t, now).None? {
      var h := Hash(t.refreshToken);
      var r := st.refresh[h];
      var rotated := Rotated(cfg, st, h, now, broken);
      var (scopes, code) := (if t.scopes != [] then t.scopes else r.scopes, if h in st.origin then st.origin[h] else h);
      TokensAreNew(cfg, rotated, t.clientId, r.userId, scopes, code, now, broken);
      OldTokensStay(cfg, rotated, t.clientId, r.userId, scopes, code, now, broken);
      hide IssueTokens, CodesOk, AccessOk, RefreshOk;
    }
  }

  /** The grant type decides what is asked for. */
  lemma GrantedExactlyWhen(cfg: Config, st: State, t: TokenRequest, now: int, broken: set<Write>)
    requires Inv(st)
    ensures var reply := Token(cfg, st, t, now, broken).1;
      && (reply.Issued? <==>
          && InsertAccess !in broken && InsertRefresh !in broken
          && ((t.grantType == "authorization_code" && MayExchange(cfg, st, t, now))
              || (t.grantType == "refresh_token" && MayRefresh(st, t, now))))
      && (reply.AccessOnly? <==>
          InsertAccess !in broken && t.grantType == "client_credentials" && MayUseCredentials(st, t))
      && (reply == Failed(UnsupportedGrantType) <==>
          t.grantType !in {"authorization_code", "refresh_token", "client_credentials"})
  {
    GrantTypesDiffer();
    OnlyTheEndpointRefusesTypes(cfg, st, t, now, broken);
    hide CodeGrant, RefreshGrant, ClientCredentialsGrant, MayExchange, MayRefresh, MayUseCredentials, Inv, IsNew;
    ExchangedExactlyWhen(cfg, st, t, now, broken);
    RefreshedExactlyWhen(cfg, st, t, now, broken);
    CredentialsExactlyWhen(cfg, st, t, now, broken);
  }

  lemma GrantTypesDiffer()
    ensures "authorization_code" != "refresh_token" && "authorization_code" != "client_credentials"
    ensures "refresh_token" != "client_credentials"
  {
    assert "authorization_code"[0] != "refresh_token"[0] && "authorization_code"[0] != "client_credentials"[0];
    assert "refresh_token"[0] != "client_credentials"[0];
  }

  lemma OnlyTheEndpointRefusesTypes(cfg: Config, st: State, t: TokenRequest, now: int, broken: set<Write>)
    ensures CodeGrant(cfg, st, t, now, broken).1 != Failed(UnsupportedGrantType)
    ensures RefreshGrant(cfg, st, t, now, broken).1 != Failed(UnsupportedGrantType)
    ensures ClientCredentialsGrant(cfg, st, t, now, broken).1 != Failed(UnsupportedGrantType)
    ensures !CodeGrant(cfg, st, t, now, broken).1.AccessOnly? && !RefreshGrant(cfg, st, t, now, broken).1.AccessOnly?
    ensures !ClientCredentialsGrant(cfg, st, t, now, broken).1.Issued?
  {
    hide Within, SecretMatches;
  }

  /** Of these rows exactly the unrevoked ones of the client are revoked, unless the update fails. */
  predicate RevokedOf(rows: map<Hash, Grant>, after: map<Hash, Grant>, id: Id, now: int, fails: bool) {
    && after.Keys == rows.Keys
    && forall h :: h in rows ==>
      if rows[h].clientId == id && rows[h].revokedAt == None && !fails then after[h] == rows[h].(revokedAt := Some(now))
      else after[h] == rows[h]
  }

  /** Deactivation is refused only for clients that do not exist. */
  lemma DeactivatedExactlyWhen(st: State, id: Id, now: int, broken: set<Write>)
    ensures var (after, reply) := RevokeClient(st, id, now, broken);
      && (reply == Done <==> id != 0 && id in st.clients)
      && (reply == Done ==>
          && id in after.clients && after.clients == st.clients[id := st.clients[id].(active := false)]
          && after.codes == st.codes
          && RevokedOf(st.access, after.access, id, now, UpdateAccess in broken)
          && RevokedOf(st.refresh, after.refresh, id, now, UpdateRefresh in broken))
      && (reply != Done ==> reply.Failed? && after == st)
  {
  }

  // ---------------------------------------------------------------- refusals

  /** Which error an authorization request gets: those about the client, then those about the
      request, consent last. */
  lemma AuthorizationRefusals(cfg: Config, st: State, a: Authorization, now: int)
    ensures var reply := Authorize(cfg, st, a, now).1;
      var formed := a.clientId != 0 && a.redirectURI != "" && a.responseType == "code";
      var known := formed && a.clientId in st.clients;
      && (reply == Failed(InvalidRequest) <==> a.clientId == 0 || a.redirectURI == "")
      && (reply == Failed(UnsupportedResponseType) <==>
          a.clientId != 0 && a.redirectURI != "" && a.responseType != "code")
      && (reply == Failed(InvalidClient) <==> formed && a.clientId !in st.clients)
      && (reply == Failed(ClientRevoked) <==> known && !st.clients[a.clientId].active)
      && (reply == Failed(RedirectURIMismatch) <==>
          known && st.clients[a.clientId].active && a.redirectURI !in st.clients[a.clientId].redirectURIs)
      && (reply == Failed(ConsentRequired) <==>
          Authorize(cfg, st, a.(consent := true), now).1.CodeIssued? && !a.consent)
  {
    hide Within;
  }

  /** Which error a code gets that is not exchanged. */
  lemma ExchangeRefusals(cfg: Config, st: State, t: TokenRequest, now: int)
    ensures var reply := CodeGrant(cfg, st, t, now, {}).1;
      var formed := t.code != 0 && t.clientId != 0 && t.redirectURI != "";
      var known := formed && t.clientId in st.clients;
      var active := known && st.clients[t.clientId].active;
      var allowed := active && "authorization_code" in st.clients[t.clientId].grants;
      && (reply == Failed(InvalidRequest) <==> !formed)
      && (reply == Failed(ClientRevoked) <==> known && !st.clients[t.clientId].active)
      && (reply == Failed(UnauthorizedClient) <==> active && "authorization_code" !in st.clients[t.clientId].grants)
      && (reply == Failed(InvalidClient) <==>
          formed && (t.clientId !in st.clients || (allowed && !Authentic(st, t.clientId, t.secret))))
      && (reply == Failed(InvalidGrant) <==>
          && allowed && Authentic(st, t.clientId, t.secret)
          && (Hash(t.code) in st.codes ==>
              var code := st.codes[Hash(t.code)];
              code.consumedAt.Some? || code.expiresAt <= now || code.clientId != t.clientId
              || code.redirectURI != t.redirectURI))
  {
    hide VerifyPKCE;
    PKCEErrors(cfg, t.verifier, if Hash(t.code) in st.codes then st.codes[Hash(t.code)].challenge else "",
               if Hash(t.code) in st.codes then st.codes[Hash(t.code)].challengeMethod else "");
  }

  lemma PKCEErrors(cfg: Config, verifier: string, challenge: string, challengeMethod: string)
    ensures var e := VerifyPKCE(cfg, verifier, challenge, challengeMethod);
      e == None || e == Some(PKCERequired) || e == Some(InvalidPKCE) || e == Some(UnsupportedMethod)
  {
  }

  /** Which error a refresh gets. */
  lemma RefreshRefusals(cfg: Config, st: State, t: TokenRequest, now: int)
    ensures var reply := RefreshGrant(cfg, st, t, now, {}).1;
      var formed := t.refreshToken != 0 && t.clientId != 0;
      var known := formed && t.clientId in st.clients;
      var authentic := known && Authentic(st, t.clientId, t.secret);
      var h := Hash(t.refreshToken);
      var usable := h in st.refresh && st.refresh[h].revokedAt == None && now < st.refresh[h].expiresAt
        && st.refresh[h].clientId == t.clientId;
      && (reply == Failed(InvalidRequest) <==> !formed)
      && (reply == Failed(ClientRevoked) <==> known && !st.clients[t.clientId].active)
      && (reply == Failed(InvalidClient) <==>
          formed && (t.clientId !in st.clients || (st.clients[t.clientId].active && !authentic)))
      && (reply == Failed(InvalidGrant) <==> authentic && !usable)
      && (reply == Failed(InvalidScope) <==> authentic && usable && !Sublist(t.scopes, st.refresh[h].scopes))
  {
    if Hash(t.refreshToken) in st.refresh {
      var r := st.refresh[Hash(t.refreshToken)];
      assert Within(t.scopes, r.scopes) <==> Sublist(t.scopes, r.scopes);
    }
    hide Within, Sublist;
  }

  // ---------------------------------------------------------------- introspection

  /** RFC 7662, section 2.2: a token is active exactly while it is stored, unrevoked and not yet
      expired, and its own row is shown. */
  lemma IntrospectedExactlyWhen(st: State, token: Id, now: int)
    requires Inv(st)
    ensures forall g :: Introspect(st, token, now) == Some(g) <==>
      && token != 0 && g.revokedAt.None? && now < g.expiresAt
      && ((Hash(token) in st.access && st.access[Hash(token)] == g)
          || (Hash(token) in st.refresh && st.refresh[Hash(token)] == g))
  {
  }

  /** RFC 7009, section 2.2: a revoked token is never active again, and only it is touched. */
  lemma RevokedExactly(st: State, token: Id, now: int, later: int, other: Id)
    requires Inv(st)
    ensures var (after, reply) := RevokeToken(st, token, now);
      && (reply == Done <==> token != 0) && (reply != Done ==> reply.Failed? && after == st)
      && (reply == Done ==> Introspect(after, token, later) == None)
      && (other != token ==> Introspect(after, other, later) == Introspect(st, other, later))
      && after.access.Keys == st.access.Keys && after.refresh.Keys == st.refresh.Keys
      && (forall h :: h in st.access ==>
            after.access[h].(revokedAt := st.access[h].revokedAt) == st.access[h])
      && (forall h :: h in st.refresh ==>
            after.refresh[h].(revokedAt := st.refresh[h].revokedAt) == st.refresh[h])
      && after.clients == st.clients && after.codes == st.codes
  {
    hide CodesOk, AccessOk, RefreshOk;
  }

  /** A freshly issued token is active until it expires, as long as no step revokes it. */
  lemma NewIsActive(st: State, token: Id, client: Id, user: Id, scopes: seq<string>, issued: int, ttl: int, now: int)
    requires Inv(st) && token != 0
    requires IsNew(st.access, token, client, user, scopes, issued, ttl)
      || IsNew(st.refresh, token, client, user, scopes, issued, ttl)
    ensures Introspect(st, token, now) ==
      if now < issued + ttl then Some(Grant(client, user, scopes, issued, issued + ttl, None)) else None
  {
    IntrospectedExactlyWhen(st, token, now);
  }

  // ---------------------------------------------------------------- runs

  /** The code is as it was issued, spent or not. */
  predicate SameCode(st: State, h: Hash, code: Code) {
    h in st.codes && st.codes[h].(consumedAt := None) == code.(consumedAt := None)
  }

  /** The client is as it was registered, active or not. */
  predicate SameClient(st: State, id: Id, c: Client) {
    id in st.clients && st.clients[id].(active := c.active) == c
  }

  lemma IssuingKeepsRows(cfg: Config, st: State, client: Id, user: Id, scopes: seq<string>, code: Hash, now: int,
                         broken: set<Write>)
    ensures var after := IssueTokens(cfg, st, client, user, scopes, code, now, broken).0;
      after.clients == st.clients && after.codes == st.codes
  {
  }

  /** Codes and clients of two states, but for consumption. */
  predicate SameRows(st: State, after: State) {
    && after.clients == st.clients
    && forall h :: h in st.codes ==> SameCode(after, h, st.codes[h])
  }

  lemma ExchangeKeepsRows(cfg: Config, st: State, t: TokenRequest, now: int, broken: set<Write>)
    ensures SameRows(st, CodeGrant(cfg, st, t, now, broken).0)
  {
    hide CodeRefusal, CodeMismatch, IssueTokens;
    if CodeRefusal(st, t, now).None? {
      PassedMeansKnown(st, t, now);
      var k := Hash(t.code);
      IssuingKeepsRows(cfg, ConsumeCode(st, k, now), t.clientId, st.codes[k].userId, st.codes[k].scopes, k, now,
                       broken);
    }
  }

  lemma RefreshKeepsRows(cfg: Config, st: State, t: TokenRequest, now: int, broken: set<Write>)
    ensures SameRows(st, RefreshGrant(cfg, st, t, now, broken).0)
  {
    hide RefreshRefusal, IssueTokens;
    if RefreshRefusal(st, t, now).None? {
      RefreshKnown(st, t, now);
      var k := Hash(t.refreshToken);
      IssuingKeepsRows(cfg, Rotated(cfg, st, k, now, broken), t.clientId, st.refresh[k].userId,
                       if t.scopes != [] then t.scopes else st.refresh[k].scopes,
                       if k in st.origin then st.origin[k] else k, now, broken);
    }
  }

  lemma CredentialsKeepRows(cfg: Config, st: State, t: TokenRequest, now: int, broken: set<Write>)
    ensures SameRows(st, ClientCredentialsGrant(cfg, st, t, now, broken).0)
  {
    hide Within, SecretMatches;
  }

  lemma TokenKeepsRows(cfg: Config, st: State, t: TokenRequest, now: int, broken: set<Write>)
    ensures SameRows(st, Token(cfg, st, t, now, broken).0)
  {
    hide CodeGrant, RefreshGrant, ClientCredentialsGrant;
    ExchangeKeepsRows(cfg, st, t, now, broken);
    RefreshKeepsRows(cfg, st, t, now, broken);
    CredentialsKeepRows(cfg, st, t, now, broken);
  }

  lemma StepKeepsRows(cfg: Config, st: State, now: int, op: Op, h: Hash, code: Code, id: Id, c: Client)
    requires Inv(st) && SameCode(st, h, code) && SameClient(st, id, c)
    ensures SameCode(Apply(cfg, st, now, op).0, h, code) && SameClient(Apply(cfg, st, now, op).0, id, c)
  {
    hide AccessOk, RefreshOk, CodesOk, Refusal, Token, RevokeWhere, OfClient, Introspect;
    if op.DoToken? {
      TokenKeepsRows(cfg, st, op.t, now, op.broken);
    }
  }

  lemma RefreshKnown(st: State, t: TokenRequest, now: int)
    requires RefreshRefusal(st, t, now).None?
    ensures Hash(t.refreshToken) in st.refresh
  {
  }

  lemma {:induction false} RunKeepsRows(cfg: Config, st: State, now: int, steps: seq<Step>, h: Hash, code: Code,
                                        id: Id, c: Client)
    requires Inv(st) && SameCode(st, h, code) && SameClient(st, id, c)
    ensures var end := Run(cfg, st, now, steps).0; Inv(end) && SameCode(end, h, code) && SameClient(end, id, c)
    decreases |steps|
  {
    hide Inv, SameCode, SameClient, Apply;
    if steps != [] {
      var later := now + steps[0].pause;
      ApplyKeeps(cfg, st, later, steps[0].op);
      StepKeepsRows(cfg, st, later, steps[0].op, h, code, id, c);
      RunKeepsRows(cfg, Apply(cfg, st, later, steps[0].op).0, later, steps[1..], h, code, id, c);
    }
  }

  /** From the authorization request to the token request, whatever happens in between: the code
      is exchanged exactly by the client it was issued to, while that is active and the code
      unspent and unexpired, for the redirect URI of the request and with the verifier the
      challenge of the request was made from. */
  lemma AuthorizeThenExchange(cfg: Config, st: State, a: Authorization, now: int, steps: seq<Step>, t: TokenRequest)
    requires Inv(st) && Authorize(cfg, st, a, now).1.CodeIssued? && Hash(t.code) == Hash(st.next)
    ensures var (end, later) := Run(cfg, Authorize(cfg, st, a, now).0, now, steps);
      var c := st.clients[a.clientId];
      && a.clientId in end.clients && Hash(t.code) in end.codes
      && (CodeGrant(cfg, end, t, later, {}).1.Issued? <==>
          && t.code != 0 && t.clientId == a.clientId && t.redirectURI == a.redirectURI
          && end.clients[a.clientId].active && end.codes[Hash(t.code)].consumedAt.None? && later < now + cfg.codeTTL
          && "authorization_code" in c.grants && (c.confidential ==> c.secret == Some(Hash(t.secret)))
          && Holds(cfg, c.confidential, t.verifier, a.challenge, a.challengeMethod))
      && (CodeGrant(cfg, end, t, later, {}).1.Issued? ==>
          var (after, reply) := CodeGrant(cfg, end, t, later, {});
          && IsNew(after.access, reply.access, a.clientId, a.userId, a.scopes, later, cfg.accessTTL)
          && IsNew(after.refresh, reply.refresh, a.clientId, a.userId, a.scopes, later, cfg.refreshTTL))
  {
    hide Inv, Authorize, CodeGrant, Run, Proves, IsNew;
    AuthorizedExactlyWhen(cfg, st, a, now);
    AuthorizeKeeps(cfg, st, a, now);
    var after := Authorize(cfg, st, a, now).0;
    RunKeepsRows(cfg, after, now, steps, Hash(t.code), after.codes[Hash(t.code)], a.clientId, st.clients[a.clientId]);
    var (end, later) := Run(cfg, after, now, steps);
    ExchangedExactlyWhen(cfg, end, t, later, {});
  }
}
