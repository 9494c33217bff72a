/** The OAuth 2.1 provider (plugins/oauth-provider/service.go) as functions on its tables. */
module OAuth {
  import opened Wrappers
  import opened Identifiers

  datatype Config = Config(
    codeTTL: int,
    accessTTL: int,
    refreshTTL: int,
    requirePKCE: bool,
    allowPlain: bool,
    rotate: bool,
    s256: string -> string)

  /** Every provider is built with these settings: PKCE and rotation cannot be switched off. */
  function WithDefaults(cfg: Config): Config {
    cfg.(
      codeTTL := if cfg.codeTTL <= 0 then 300 else cfg.codeTTL,
      accessTTL := if cfg.accessTTL <= 0 then 3600 else cfg.accessTTL,
      refreshTTL := if cfg.refreshTTL <= 0 then 2592000 else cfg.refreshTTL,
      requirePKCE := true,
      rotate := true)
  }

  /** Confidential clients have a secret. */
  datatype Client = Client(
    confidential: bool,
    secret: Option<Hash>,
    redirectURIs: seq<string>,
    grants: seq<string>,
    allowed: seq<string>,
    active: bool)

  datatype Code = Code(
    clientId: Id,
    userId: Id,
    redirectURI: string,
    scopes: seq<string>,
    challenge: string,
    challengeMethod: string,
    expiresAt: int,
    consumedAt: Option<int>)

  /** An access or refresh token row. */
  datatype Grant = Grant(
    clientId: Id,
    userId: Id,
    scopes: seq<string>,
    createdAt: int,
    expiresAt: int,
    revokedAt: Option<int>)
  {
    predicate Live(now: int) {
      revokedAt.None? && now < expiresAt
    }
  }

  /** The tables, and the code each token descends from, which the service does not store. */
  datatype State = State(
    clients: map<Id, Client>,
    codes: map<Hash, Code>,
    access: map<Hash, Grant>,
    refresh: map<Hash, Grant>,
    origin: map<Hash, Hash>,
    next: Id)

  datatype Error =
    | InvalidRequest | InvalidClient | ClientRevoked | UnsupportedResponseType | RedirectURIMismatch
    | InvalidScope | PKCERequired | InvalidPKCE | UnsupportedMethod | ConsentRequired
    | UnsupportedGrantType | UnauthorizedClient | InvalidGrant | StoreFailure

  /** Writes that can fail in the middle of an operation. */
  datatype Write = UpdateAccess | UpdateRefresh | InsertAccess | InsertRefresh

  datatype Authorization = Authorization(
    clientId: Id,
    userId: Id,
    redirectURI: string,
    responseType: string,
    scopes: seq<string>,
    challenge: string,
    challengeMethod: string,
    consent: bool)

  datatype TokenRequest = TokenRequest(
    grantType: string,
    clientId: Id,
    secret: Id,
    code: Id,
    redirectURI: string,
    verifier: string,
    refreshToken: Id,
    scopes: seq<string>)

  datatype Reply =
    | Failed(error: Error)
    | Done
    | Registered(client: Id, secret: Id)
    | CodeIssued(code: Id)
    | Issued(access: Id, refresh: Id, scopes: seq<string>)
    | AccessOnly(access: Id, scopes: seq<string>)
    | Introspected(grant: Option<Grant>)

  // ---------------------------------------------------------------- checks

  predicate Within(scopes: seq<string>, allowed: seq<string>) {
    forall i :: 0 <= i < |scopes| ==> scopes[i] in allowed
  }

  predicate SecretMatches(c: Client, secret: Id) {
    c.secret == Some(Hash(secret))
  }

  /** RFC 7636, section 4.6. */
  function VerifyPKCE(cfg: Config, verifier: string, challenge: string, challengeMethod: string): Option<Error> {
    if verifier == "" || challenge == "" then Some(PKCERequired)
    else if |verifier| < 43 || |verifier| > 128 then Some(InvalidPKCE)
    else if challengeMethod == "S256" then
      if cfg.s256(verifier) != challenge then Some(InvalidPKCE) else None
    else if challengeMethod == "plain" then
      if !cfg.allowPlain || verifier != challenge then Some(InvalidPKCE) else None
    else Some(UnsupportedMethod)
  }

  /** Why an authorization request is refused, if it is. */
  function Refusal(cfg: Config, st: State, a: Authorization): Option<Error> {
    if a.clientId == 0 || a.redirectURI == "" then Some(InvalidRequest)
    else if a.responseType != "code" then Some(UnsupportedResponseType)
    else if a.clientId !in st.clients then Some(InvalidClient)
    else
      var c := st.clients[a.clientId];
      if !c.active then Some(ClientRevoked)
      else if a.redirectURI !in c.redirectURIs then Some(RedirectURIMismatch)
      else if a.scopes != [] && c.allowed != [] && !Within(a.scopes, c.allowed) then Some(InvalidScope)
      else if cfg.requirePKCE && !c.confidential && a.challenge == "" then Some(PKCERequired)
      else if a.challenge != "" && a.challengeMethod == "plain" && !cfg.allowPlain then Some(InvalidPKCE)
      else if a.challenge != "" && a.challengeMethod != "S256" && a.challengeMethod != "plain" then Some(InvalidPKCE)
      else if !a.consent then Some(ConsentRequired)
      else None
  }

  // ---------------------------------------------------------------- operations

  function Register(st: State, confidential: bool, redirectURIs: seq<string>, grants: seq<string>, allowed: seq<string>)
    : (State, Reply)
  {
    if redirectURIs == [] && !confidential then (st, Failed(InvalidRequest))
    else
      var (id, secret) := (st.next, st.next + 1);
      var c := Client(confidential, if confidential then Some(Hash(secret)) else None, redirectURIs,
                      if grants == [] then ["authorization_code", "refresh_token"] else grants, allowed, true);
      (st.(clients := st.clients[id := c], next := st.next + 2), Registered(id, if confidential then secret else 0))
  }

  function Authorize(cfg: Config, st: State, a: Authorization, now: int): (State, Reply) {
    match Refusal(cfg, st, a)
    case Some(e) => (st, Failed(e))
    case None =>
      var code := Code(a.clientId, a.userId, a.redirectURI, a.scopes, a.challenge, a.challengeMethod,
                       now + cfg.codeTTL, None);
      (st.(codes := st.codes[Hash(st.next) := code], next := st.next + 1), CodeIssued(st.next))
  }

  function WithAccess(cfg: Config, st: State, client: Id, user: Id, scopes: seq<string>, now: int): State {
    st.(access := st.access[Hash(st.next) := Grant(client, user, scopes, now, now + cfg.accessTTL, None)],
       next := st.next + 1)
  }

  function WithRefresh(cfg: Config, st: State, client: Id, user: Id, scopes: seq<string>, now: int): State {
    st.(refresh := st.refresh[Hash(st.next) := Grant(client, user, scopes, now, now + cfg.refreshTTL, None)],
       next := st.next + 1)
  }

  function WithOrigin(st: State, h: Hash, code: Hash): State {
    st.(origin := st.origin[h := code])
  }

  function IssueTokens(cfg: Config, st: State, client: Id, user: Id, scopes: seq<string>, code: Hash, now: int,
                       broken: set<Write>)
    : (State, Reply)
  {
    if InsertAccess in broken then (st, Failed(StoreFailure))
    else
      var a := st.next;
      var withAccess := WithOrigin(WithAccess(cfg, st, client, user, scopes, now), Hash(a), code);
      if InsertRefresh in broken then (withAccess, Failed(StoreFailure))
      else
        var r := withAccess.next;
        (WithOrigin(WithRefresh(cfg, withAccess, client, user, scopes, now), Hash(r), code), Issued(a, r, scopes))
  }

  /** Whether the code grant gets as far as consuming the code. */
  function CodeRefusal(st: State, t: TokenRequest, now: int): Option<Error> {
    if t.code == 0 || t.clientId == 0 || t.redirectURI == "" then Some(InvalidRequest)
    else if t.clientId !in st.clients then Some(InvalidClient)
    else
      var c := st.clients[t.clientId];
      if !c.active then Some(ClientRevoked)
      else if "authorization_code" !in c.grants then Some(UnauthorizedClient)
      else if c.confidential && !SecretMatches(c, t.secret) then Some(InvalidClient)
      else if Hash(t.code) !in st.codes then Some(InvalidGrant)
      else if st.codes[Hash(t.code)].consumedAt.Some? || st.codes[Hash(t.code)].expiresAt <= now then Some(InvalidGrant)
      else None
  }

  /** A code that is refused here has been consumed all the same. */
  function CodeMismatch(cfg: Config, c: Client, code: Code, t: TokenRequest): Option<Error> {
    if code.clientId != t.clientId || code.redirectURI != t.redirectURI then Some(InvalidGrant)
    else if code.challenge != "" then VerifyPKCE(cfg, t.verifier, code.challenge, code.challengeMethod)
    else if !c.confidential then Some(PKCERequired)
    else None
  }

  function ConsumeCode(st: State, h: Hash, now: int): State
    requires h in st.codes
  {
    st.(codes := st.codes[h := st.codes[h].(consumedAt := Some(now))])
  }

  function CodeGrant(cfg: Config, st: State, t: TokenRequest, now: int, broken: set<Write>): (State, Reply) {
    match CodeRefusal(st, t, now)
    case Some(e) => (st, Failed(e))
    case None =>
      var h := Hash(t.code);
      var code := st.codes[h];
      var consumed := ConsumeCode(st, h, now);
      match CodeMismatch(cfg, st.clients[t.clientId], code, t)
      case Some(e) => (consumed, Failed(e))
      case None => IssueTokens(cfg, consumed, t.clientId, code.userId, code.scopes, h, now, broken)
  }

  function ClientCredentialsGrant(cfg: Config, st: State, t: TokenRequest, now: int, broken: set<Write>)
    : (State, Reply)
  {
    if t.clientId == 0 || t.secret == 0 then (st, Failed(InvalidRequest))
    else if t.clientId !in st.clients then (st, Failed(InvalidClient))
    else
      var c := st.clients[t.clientId];
      if !c.active then (st, Failed(ClientRevoked))
      else if !c.confidential || "client_credentials" !in c.grants then (st, Failed(UnauthorizedClient))
      else if !SecretMatches(c, t.secret) then (st, Failed(InvalidClient))
      else if t.scopes != [] && !Within(t.scopes, c.allowed) then (st, Failed(InvalidScope))
      else if InsertAccess in broken then (st, Failed(StoreFailure))
      else
        var scopes := if t.scopes != [] then t.scopes else c.allowed;
        (WithAccess(cfg, st, t.clientId, 0, scopes, now), AccessOnly(st.next, scopes))
  }

  function RefreshRefusal(st: State, t: TokenRequest, now: int): Option<Error> {
    if t.refreshToken == 0 || t.clientId == 0 then Some(InvalidRequest)
    else if t.clientId !in st.clients then Some(InvalidClient)
    else
      var c := st.clients[t.clientId];
      var h := Hash(t.refreshToken);
      if !c.active then Some(ClientRevoked)
      else if c.confidential && !SecretMatches(c, t.secret) then Some(InvalidClient)
      else if h !in st.refresh || !st.refresh[h].Live(now) || st.refresh[h].clientId != t.clientId then
        Some(InvalidGrant)
      else if t.scopes != [] && !Within(t.scopes, st.refresh[h].scopes) then Some(InvalidScope)
      else None
  }

  function Rotated(cfg: Config, st: State, h: Hash, now: int, broken: set<Write>): State
    requires h in st.refresh
  {
    if cfg.rotate && UpdateRefresh !in broken then
      st.(refresh := st.refresh[h := st.refresh[h].(revokedAt := Some(now))])
    else st
  }

  function RefreshGrant(cfg: Config, st: State, t: TokenRequest, now: int, broken: set<Write>): (State, Reply) {
    match RefreshRefusal(st, t, now)
    case Some(e) => (st, Failed(e))
    case None =>
      var h := Hash(t.refreshToken);
      var r := st.refresh[h];
      var scopes := if t.scopes != [] then t.scopes else r.scopes;
      var code := if h in st.origin then st.origin[h] else h;
      IssueTokens(cfg, Rotated(cfg, st, h, now, broken), t.clientId, r.userId, scopes, code, now, broken)
  }

  function Token(cfg: Config, st: State, t: TokenRequest, now: int, broken: set<Write>): (State, Reply) {
    if t.grantType == "authorization_code" then CodeGrant(cfg, st, t, now, broken)
    else if t.grantType == "client_credentials" then ClientCredentialsGrant(cfg, st, t, now, broken)
    else if t.grantType == "refresh_token" then RefreshGrant(cfg, st, t, now, broken)
    else (st, Failed(UnsupportedGrantType))
  }

  function RevokeWhere(rows: map<Hash, Grant>, keys: set<Hash>, now: int): map<Hash, Grant> {
    map h | h in rows :: if h in keys && rows[h].revokedAt.None? then rows[h].(revokedAt := Some(now)) else rows[h]
  }

  function OfClient(rows: map<Hash, Grant>, client: Id): set<Hash> {
    set h | h in rows && rows[h].clientId == client
  }

  /** The updates of the tokens may fail unnoticed. */
  function RevokeClient(st: State, id: Id, now: int, broken: set<Write>): (State, Reply) {
    if id == 0 then (st, Failed(InvalidRequest))
    else if id !in st.clients then (st, Failed(InvalidClient))
    else
      (st.(clients := st.clients[id := st.clients[id].(active := false)],
           access := if UpdateAccess in broken then st.access else RevokeWhere(st.access, OfClient(st.access, id), now),
           refresh :=
             if UpdateRefresh in broken then st.refresh else RevokeWhere(st.refresh, OfClient(st.refresh, id), now)),
       Done)
  }

  /** RFC 7009, section 2.1: unknown and revoked tokens are no error. */
  function RevokeToken(st: State, token: Id, now: int): (State, Reply) {
    if token == 0 then (st, Failed(InvalidRequest))
    else
      (st.(access := RevokeWhere(st.access, {Hash(token)}, now),
           refresh := RevokeWhere(st.refresh, {Hash(token)}, now)),
       Done)
  }

  /** RFC 7662, section 2.2: the row of an active token, an access token first. */
  function Introspect(st: State, token: Id, now: int): Option<Grant> {
    var h := Hash(token);
    if token == 0 then None
    else if h in st.access then (if st.access[h].Live(now) then Some(st.access[h]) else None)
    else if h in st.refresh && st.refresh[h].Live(now) then Some(st.refresh[h])
    else None
  }

  // ---------------------------------------------------------------- runs

  datatype Op =
    | DoRegister(confidential: bool, redirectURIs: seq<string>, grants: seq<string>, allowed: seq<string>)
    | DoAuthorize(request: Authorization)
    | DoToken(t: TokenRequest, broken: set<Write>)
    | DoRevokeClient(id: Id, broken: set<Write>)
    | DoRevokeToken(token: Id)
    | DoIntrospect(token: Id)

  function Apply(cfg: Config, st: State, now: int, op: Op): (State, Reply) {
    match op
    case DoRegister(confidential, redirectURIs, grants, allowed) =>
      Register(st, confidential, redirectURIs, grants, allowed)
    case DoAuthorize(request) => Authorize(cfg, st, request, now)
    case DoToken(t, broken) => Token(cfg, st, t, now, broken)
    case DoRevokeClient(id, broken) => RevokeClient(st, id, now, broken)
    case DoRevokeToken(token) => RevokeToken(st, token, now)
    case DoIntrospect(token) => (st, Introspected(Introspect(st, token, now)))
  }

  datatype Step = Step(pause: nat, op: Op)

  function Run(cfg: Config, st: State, now: int, steps: seq<Step>): (State, int)
    decreases |steps|
  {
    if steps == [] then (st, now)
    else
      var later := now + steps[0].pause;
      Run(cfg, Apply(cfg, st, later, steps[0].op).0, later, steps[1..])
  }

  const EMPTY: State := State(map[], map[], map[], map[], map[], 1)
}
