/** Lineage, scopes and revocation over every run of the OAuth provider. */
module OAuthLaws {
  import opened Wrappers
  import opened Identifiers
  import opened OAuth

  // ---------------------------------------------------------------- the invariant

  predicate Allowed(clients: map<Id, Client>, client: Id, scopes: seq<string>) {
    client in clients && (clients[client].allowed != [] ==> Within(scopes, clients[client].allowed))
  }

  /** Tokens of this client, user and scopes may descend from this code: it is consumed, and
      grants these scopes to this client for this user. */
  predicate Grants(codes: map<Hash, Code>, code: Hash, client: Id, user: Id, scopes: seq<string>) {
    && code in codes && codes[code].consumedAt.Some?
    && codes[code].clientId == client && codes[code].userId == user && Within(scopes, codes[code].scopes)
  }

  predicate KeysOk(st: State) {
    && (forall c :: c in st.clients ==> c < st.next)
    && (forall h :: h in st.codes.Keys + st.access.Keys + st.refresh.Keys + st.origin.Keys ==> h.token < st.next)
    && st.access.Keys !! st.refresh.Keys
  }

  predicate CodesOk(clients: map<Id, Client>, codes: map<Hash, Code>) {
    forall h :: h in codes ==> Allowed(clients, codes[h].clientId, codes[h].scopes)
  }

  predicate AccessOk(clients: map<Id, Client>, codes: map<Hash, Code>, origin: map<Hash, Hash>,
                     access: map<Hash, Grant>)
  {
    forall h :: h in access ==>
      && Allowed(clients, access[h].clientId, access[h].scopes)
      && (if h in origin then Grants(codes, origin[h], access[h].clientId, access[h].userId, access[h].scopes)
          else access[h].userId == 0)
  }

  predicate RefreshOk(clients: map<Id, Client>, codes: map<Hash, Code>, origin: map<Hash, Hash>,
                      refresh: map<Hash, Grant>)
  {
    forall h :: h in refresh ==>
      && Allowed(clients, refresh[h].clientId, refresh[h].scopes)
      && h in origin && Grants(codes, origin[h], refresh[h].clientId, refresh[h].userId, refresh[h].scopes)
  }

  predicate Inv(st: State) {
    && KeysOk(st) && CodesOk(st.clients, st.codes)
    && AccessOk(st.clients, st.codes, st.origin, st.access)
    && RefreshOk(st.clients, st.codes, st.origin, st.refresh)
  }

  /** At most one unrevoked refresh token descends from a code. */
  predicate Lineage(st: State) {
    forall g, h ::
      (g in st.refresh && h in st.refresh && g in st.origin && h in st.origin && st.origin[g] == st.origin[h]
       && st.refresh[g].revokedAt.None? && st.refresh[h].revokedAt.None?) ==> g == h
  }

  // ---------------------------------------------------------------- single changes

  lemma ConsumeKeeps(st: State, h: Hash, now: int)
    requires Inv(st) && h in st.codes
    ensures Inv(ConsumeCode(st, h, now))
    ensures Lineage(st) ==> Lineage(ConsumeCode(st, h, now))
  {
    hide Allowed, Within;
  }

  lemma FreshOrigin(st: State, h: Hash, code: Hash)
    requires Inv(st) && h !in st.access && h !in st.refresh
    ensures AccessOk(st.clients, st.codes, st.origin[h := code], st.access)
    ensures RefreshOk(st.clients, st.codes, st.origin[h := code], st.refresh)
  {
    hide Allowed, Grants, KeysOk, CodesOk;
  }

  lemma FreshKey(st: State)
    requires KeysOk(st)
    ensures var h := Hash(st.next);
      h !in st.access && h !in st.refresh && h !in st.codes && h !in st.origin
  {
  }

  lemma AccessKeeps(cfg: Config, st: State, client: Id, user: Id, scopes: seq<string>, code: Hash, now: int)
    requires Inv(st) && Allowed(st.clients, client, scopes) && Grants(st.codes, code, client, user, scopes)
    ensures var after := WithOrigin(WithAccess(cfg, st, client, user, scopes, now), Hash(st.next), code);
      Inv(after) && (Lineage(st) ==> Lineage(after))
  {
    hide Allowed, Grants, CodesOk;
    FreshKey(st);
    FreshOrigin(st, Hash(st.next), code);
    hide RefreshOk;
  }

  lemma RefreshKeeps(cfg: Config, st: State, client: Id, user: Id, scopes: seq<string>, code: Hash, now: int)
    requires Inv(st) && Allowed(st.clients, client, scopes) && Grants(st.codes, code, client, user, scopes)
    ensures Inv(WithOrigin(WithRefresh(cfg, st, client, user, scopes, now), Hash(st.next), code))
  {
    hide Allowed, Grants, CodesOk, AccessOk;
    FreshKey(st);
    FreshOrigin(st, Hash(st.next), code);
  }

  /** No unrevoked refresh token descends from this code. */
  predicate NoneLeft(st: State, code: Hash) {
    forall h :: h in st.refresh && h in st.origin && st.origin[h] == code ==> st.refresh[h].revokedAt.Some?
  }

  lemma RefreshKeepsLineage(cfg: Config, st: State, client: Id, user: Id, scopes: seq<string>, code: Hash, now: int)
    requires KeysOk(st) && Lineage(st)
    ensures var after := WithOrigin(WithRefresh(cfg, st, client, user, scopes, now), Hash(st.next), code);
      Lineage(after) <==> NoneLeft(st, code)
  {
    var after := WithOrigin(WithRefresh(cfg, st, client, user, scopes, now), Hash(st.next), code);
    assert Hash(st.next) in after.refresh && after.origin[Hash(st.next)] == code;
    if !NoneLeft(st, code) {
      var h :| h in st.refresh && h in st.origin && st.origin[h] == code && st.refresh[h].revokedAt.None?;
      assert h != Hash(st.next) && after.refresh[h] == st.refresh[h] && after.origin[h] == code;
    }
  }

  /** Revoking tokens, by whatever update, breaks nothing. */
  lemma RevokingKeeps(st: State, access: set<Hash>, refresh: set<Hash>, now: int)
    requires Inv(st)
    ensures var after :=
        st.(access := RevokeWhere(st.access, access, now), refresh := RevokeWhere(st.refresh, refresh, now));
      Inv(after) && (Lineage(st) ==> Lineage(after))
  {
    hide Allowed, Grants;
  }

  lemma WithinTrans(a: seq<string>, b: seq<string>, c: seq<string>)
    requires Within(a, b) && Within(b, c)
    ensures Within(a, c)
  {
    forall i | 0 <= i < |a| ensures a[i] in c {
      var j :| 0 <= j < |b| && b[j] == a[i];
      assert b[j] in c;
    }
  }

  // ---------------------------------------------------------------- operations

  /** Whether a token request rotates: no refresh token is replaced without being revoked. */
  predicate Rotates(cfg: Config, op: Op) {
    op.DoToken? && op.t.grantType == "refresh_token" ==> cfg.rotate && UpdateRefresh !in op.broken
  }

  lemma InvHasKeys(st: State)
    requires Inv(st)
    ensures KeysOk(st)
  {
  }

  lemma AccessKeepsNoneLeft(cfg: Config, st: State, client: Id, user: Id, scopes: seq<string>, code: Hash, now: int)
    requires Inv(st)
    ensures var after := WithOrigin(WithAccess(cfg, st, client, user, scopes, now), Hash(st.next), code);
      && after.clients == st.clients && after.codes == st.codes
      && (NoneLeft(after, code) <==> NoneLeft(st, code))
  {
    hide Allowed, Grants;
  }

  lemma IssueKeeps(cfg: Config, st: State, client: Id, user: Id, scopes: seq<string>, code: Hash, now: int,
                   broken: set<Write>)
    requires Inv(st) && Allowed(st.clients, client, scopes) && Grants(st.codes, code, client, user, scopes)
    ensures Inv(IssueTokens(cfg, st, client, user, scopes, code, now, broken).0)
    ensures Lineage(st) && NoneLeft(st, code) ==>
      Lineage(IssueTokens(cfg, st, client, user, scopes, code, now, broken).0)
  {
    hide Allowed, Grants, Lineage, NoneLeft, Inv;
    AccessKeeps(cfg, st, client, user, scopes, code, now);
    AccessKeepsNoneLeft(cfg, st, client, user, scopes, code, now);
    var withAccess := WithOrigin(WithAccess(cfg, st, client, user, scopes, now), Hash(st.next), code);
    InvHasKeys(withAccess);
    RefreshKeeps(cfg, withAccess, client, user, scopes, code, now);
    if Lineage(st) {
      RefreshKeepsLineage(cfg, withAccess, client, user, scopes, code, now);
    }
  }

  lemma CodeGrantKeeps(cfg: Config, st: State, t: TokenRequest, now: int, broken: set<Write>)
    requires Inv(st)
    ensures Inv(CodeGrant(cfg, st, t, now, broken).0)
    ensures Lineage(st) ==> Lineage(CodeGrant(cfg, st, t, now, broken).0)
  {
    if CodeRefusal(st, t, now).None? {
      var h := Hash(t.code);
      var consumed := ConsumeCode(st, h, now);
      ConsumeKeeps(st, h, now);
      assert NoneLeft(consumed, h);
      hide Lineage, NoneLeft;
      if CodeMismatch(cfg, st.clients[t.clientId], st.codes[h], t).None? {
        IssueKeeps(cfg, consumed, t.clientId, st.codes[h].userId, st.codes[h].scopes, h, now, broken);
      }
    }
  }

  lemma AnonymousAccessKeeps(cfg: Config, st: State, client: Id, scopes: seq<string>, now: int)
    requires Inv(st) && Allowed(st.clients, client, scopes)
    ensures var after := WithAccess(cfg, st, client, 0, scopes, now);
      Inv(after) && (Lineage(st) ==> Lineage(after))
  {
    hide Allowed, Grants, CodesOk, RefreshOk;
    FreshKey(st);
  }

  lemma CredentialsKeep(cfg: Config, st: State, t: TokenRequest, now: int, broken: set<Write>)
    requires Inv(st)
    ensures Inv(ClientCredentialsGrant(cfg, st, t, now, broken).0)
    ensures Lineage(st) ==> Lineage(ClientCredentialsGrant(cfg, st, t, now, broken).0)
  {
    hide Inv, Lineage, WithAccess;
    if ClientCredentialsGrant(cfg, st, t, now, broken).1.AccessOnly? {
      var scopes := if t.scopes != [] then t.scopes else st.clients[t.clientId].allowed;
      AnonymousAccessKeeps(cfg, st, t.clientId, scopes, now);
    }
  }

  lemma RevokeNone(rows: map<Hash, Grant>, now: int)
    ensures RevokeWhere(rows, {}, now) == rows
  {
  }

  lemma RevokeOne(rows: map<Hash, Grant>, h: Hash, now: int)
    requires h in rows && rows[h].revokedAt.None?
    ensures RevokeWhere(rows, {h}, now) == rows[h := rows[h].(revokedAt := Some(now))]
  {
  }

  /** After the old token is revoked nothing of its lineage is left; otherwise it is. */
  lemma RotationEmptiesLineage(cfg: Config, st: State, h: Hash, now: int, broken: set<Write>)
    requires Lineage(st) && h in st.refresh && h in st.origin && st.refresh[h].revokedAt.None?
    ensures NoneLeft(Rotated(cfg, st, h, now, broken), st.origin[h]) <==> cfg.rotate && UpdateRefresh !in broken
  {
  }

  lemma RotationKeeps(cfg: Config, st: State, h: Hash, now: int, broken: set<Write>)
    requires Inv(st) && h in st.refresh && st.refresh[h].revokedAt.None?
    ensures h in st.origin
    ensures var after := Rotated(cfg, st, h, now, broken);
      && Inv(after) && (Lineage(st) ==> Lineage(after))
      && (Lineage(st) ==> (NoneLeft(after, st.origin[h]) <==> cfg.rotate && UpdateRefresh !in broken))
  {
    HasOrigin(st, h);
    hide Inv, Lineage, NoneLeft, RevokeWhere;
    if Lineage(st) {
      RotationEmptiesLineage(cfg, st, h, now, broken);
    }
    RevokingKeeps(st, {}, {h}, now);
    RevokeNone(st.access, now);
    RevokeOne(st.refresh, h, now);
  }

  lemma HasOrigin(st: State, h: Hash)
    requires Inv(st) && h in st.refresh
    ensures h in st.origin
  {
  }

  lemma RefreshGrantKeeps(cfg: Config, st: State, t: TokenRequest, now: int, broken: set<Write>)
    requires Inv(st)
    ensures Inv(RefreshGrant(cfg, st, t, now, broken).0)
    ensures Lineage(st) && cfg.rotate && UpdateRefresh !in broken ==> Lineage(RefreshGrant(cfg, st, t, now, broken).0)
  {
    if RefreshRefusal(st, t, now).None? {
      var h := Hash(t.refreshToken);
      var r := st.refresh[h];
      var scopes := if t.scopes != [] then t.scopes else r.scopes;
      NarrowedScopes(st, r, scopes, st.origin[h]);
      RotationKeeps(cfg, st, h, now, broken);
      hide Lineage, NoneLeft, Within, Grants;
      IssueKeeps(cfg, Rotated(cfg, st, h, now, broken), t.clientId, r.userId, scopes, st.origin[h], now, broken);
    }
  }

  lemma NarrowedScopes(st: State, r: Grant, scopes: seq<string>, code: Hash)
    requires Allowed(st.clients, r.clientId, r.scopes) && Grants(st.codes, code, r.clientId, r.userId, r.scopes)
    requires Within(scopes, r.scopes)
    ensures Allowed(st.clients, r.clientId, scopes) && Grants(st.codes, code, r.clientId, r.userId, scopes)
  {
    hide Within;
    WithinTrans(scopes, r.scopes, st.codes[code].scopes);
    if st.clients[r.clientId].allowed != [] {
      WithinTrans(scopes, r.scopes, st.clients[r.clientId].allowed);
    }
  }

  /** Exactly when a successful refresh leaves the lineage single: the old token was revoked. */
  lemma RefreshLineage(cfg: Config, st: State, t: TokenRequest, now: int, broken: set<Write>)
    requires Inv(st) && Lineage(st) && RefreshGrant(cfg, st, t, now, broken).1.Issued?
    ensures Lineage(RefreshGrant(cfg, st, t, now, broken).0) <==> cfg.rotate && UpdateRefresh !in broken
  {
    var h := Hash(t.refreshToken);
    var r := st.refresh[h];
    var code := st.origin[h];
    var scopes := if t.scopes != [] then t.scopes else r.scopes;
    NarrowedScopes(st, r, scopes, code);
    var rotated := Rotated(cfg, st, h, now, broken);
    RotationKeeps(cfg, st, h, now, broken);
    var withAccess := WithOrigin(WithAccess(cfg, rotated, t.clientId, r.userId, scopes, now), Hash(st.next), code);
    AccessKeeps(cfg, rotated, t.clientId, r.userId, scopes, code, now);
    assert NoneLeft(rotated, code) <==> NoneLeft(withAccess, code) by {
      hide Allowed, Grants, Lineage;
    }
    hide Lineage, NoneLeft, Within, Grants;
    RefreshKeepsLineage(cfg, withAccess, t.clientId, r.userId, scopes, code, now);
  }

  lemma RegisterKeeps(st: State, confidential: bool, redirectURIs: seq<string>, grants: seq<string>,
                      allowed: seq<string>)
    requires Inv(st)
    ensures Inv(Register(st, confidential, redirectURIs, grants, allowed).0)
    ensures Lineage(st) ==> Lineage(Register(st, confidential, redirectURIs, grants, allowed).0)
  {
    hide Grants, Within;
  }

  lemma GrantedScopesAreAllowed(cfg: Config, st: State, a: Authorization)
    requires Refusal(cfg, st, a).None?
    ensures Allowed(st.clients, a.clientId, a.scopes)
  {
  }

  lemma NewCodeKeeps(st: State, code: Code)
    requires Inv(st) && Allowed(st.clients, code.clientId, code.scopes)
    ensures var after := st.(codes := st.codes[Hash(st.next) := code], next := st.next + 1);
      Inv(after) && (Lineage(st) ==> Lineage(after))
  {
    hide Allowed, Within;
  }

  lemma AuthorizeKeeps(cfg: Config, st: State, a: Authorization, now: int)
    requires Inv(st)
    ensures Inv(Authorize(cfg, st, a, now).0)
    ensures Lineage(st) ==> Lineage(Authorize(cfg, st, a, now).0)
  {
    hide Inv, Lineage, Refusal, Allowed;
    if Refusal(cfg, st, a).None? {
      GrantedScopesAreAllowed(cfg, st, a);
      var code := Code(a.clientId, a.userId, a.redirectURI, a.scopes, a.challenge, a.challengeMethod,
                       now + cfg.codeTTL, None);
      NewCodeKeeps(st, code);
    }
  }
}
