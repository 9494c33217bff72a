/** Whole runs of the OAuth provider: codes are exchanged once, lineages stay single, scopes stay
    within their code and client, revoked clients stay silent. */
module OAuthRuns {
  import opened Wrappers
  import opened Identifiers
  import opened OAuth
  import opened OAuthLaws

  lemma TokenKeeps(cfg: Config, st: State, now: int, t: TokenRequest, broken: set<Write>)
    requires Inv(st)
    ensures Inv(Token(cfg, st, t, now, broken).0)
    ensures Lineage(st) && Rotates(cfg, DoToken(t, broken)) ==> Lineage(Token(cfg, st, t, now, broken).0)
  {
    hide Inv, Lineage, CodeGrant, ClientCredentialsGrant, RefreshGrant;
    CodeGrantKeeps(cfg, st, t, now, broken);
    CredentialsKeep(cfg, st, t, now, broken);
    RefreshGrantKeeps(cfg, st, t, now, broken);
  }

  lemma ApplyKeeps(cfg: Config, st: State, now: int, op: Op)
    requires Inv(st)
    ensures Inv(Apply(cfg, st, now, op).0)
    ensures Lineage(st) && Rotates(cfg, op) ==> Lineage(Apply(cfg, st, now, op).0)
  {
    hide Inv, Lineage, Token, Register, Authorize, RevokeClient, RevokeWhere;
    match op
    case DoRegister(confidential, redirectURIs, grants, allowed) =>
      RegisterKeeps(st, confidential, redirectURIs, grants, allowed);
    case DoAuthorize(request) => AuthorizeKeeps(cfg, st, request, now);
    case DoToken(t, broken) => TokenKeeps(cfg, st, now, t, broken);
    case DoRevokeClient(id, broken) => ClientKeeps(st, id, now, broken);
    case DoRevokeToken(token) => RevokingKeeps(st, {Hash(token)}, {Hash(token)}, now);
    case DoIntrospect(_) =>
  }

  lemma ClientKeeps(st: State, id: Id, now: int, broken: set<Write>)
    requires Inv(st)
    ensures Inv(RevokeClient(st, id, now, broken).0)
    ensures Lineage(st) ==> Lineage(RevokeClient(st, id, now, broken).0)
  {
    if id in st.clients {
      var access := if UpdateAccess in broken then {} else OfClient(st.access, id);
      var refresh := if UpdateRefresh in broken then {} else OfClient(st.refresh, id);
      RevokingKeeps(st, access, refresh, now);
      RevokeNone(st.access, now);
      RevokeNone(st.refresh, now);
      var revoked :=
        st.(access := RevokeWhere(st.access, access, now), refresh := RevokeWhere(st.refresh, refresh, now));
      hide RevokeWhere, OfClient;
      DeactivateKeeps(revoked, id);
    }
  }

  lemma DeactivateKeeps(st: State, id: Id)
    requires Inv(st) && id in st.clients
    ensures var after := st.(clients := st.clients[id := st.clients[id].(active := false)]);
      Inv(after) && (Lineage(st) ==> Lineage(after))
  {
    hide Grants, Within;
  }

  lemma {:induction false} RunKeepsInv(cfg: Config, st: State, now: int, steps: seq<Step>)
    requires Inv(st)
    ensures Inv(Run(cfg, st, now, steps).0)
    decreases |steps|
  {
    hide Inv, Lineage, Apply, Rotates;
    if steps != [] {
      var later := now + steps[0].pause;
      ApplyKeeps(cfg, st, later, steps[0].op);
      RunKeepsInv(cfg, Apply(cfg, st, later, steps[0].op).0, later, steps[1..]);
    }
  }

  /** With rotation, and no refused update of the rotated token, every code has at most one
      unrevoked refresh-token descendant in every reachable state. */
  lemma {:induction false} SingleLineage(cfg: Config, st: State, now: int, steps: seq<Step>)
    requires Inv(st) && Lineage(st) && forall i :: 0 <= i < |steps| ==> Rotates(cfg, steps[i].op)
    ensures Lineage(Run(cfg, st, now, steps).0)
    decreases |steps|
  {
    hide Inv, Lineage, Apply, Rotates;
    if steps != [] {
      var later := now + steps[0].pause;
      ApplyKeeps(cfg, st, later, steps[0].op);
      SingleLineage(cfg, Apply(cfg, st, later, steps[0].op).0, later, steps[1..]);
    }
  }

  lemma EmptyIsFine()
    ensures Inv(EMPTY) && Lineage(EMPTY)
  {
  }

  /** No configuration escapes rotation: from an empty database, while updates succeed, every
      run of a provider keeps single lineages, whatever options it was built with. */
  lemma ProvidersRotate(options: Config, now: int, steps: seq<Step>)
    requires forall i :: 0 <= i < |steps| && steps[i].op.DoToken? ==> UpdateRefresh !in steps[i].op.broken
    ensures Lineage(Run(WithDefaults(options), EMPTY, now, steps).0)
  {
    EmptyIsFine();
    SingleLineage(WithDefaults(options), EMPTY, now, steps);
  }

  /** The scopes of a token are allowed to its client, if the client's are limited at all, and
      are scopes of the code it descends from, if it descends from one. */
  predicate ScopesWithin(st: State, h: Hash, g: Grant) {
    && g.clientId in st.clients
    && (st.clients[g.clientId].allowed != [] ==> Within(g.scopes, st.clients[g.clientId].allowed))
    && (h in st.origin ==> st.origin[h] in st.codes && Within(g.scopes, st.codes[st.origin[h]].scopes))
  }

  /** So it is in every reachable state, and only tokens without a user descend from no code. */
  lemma ScopesStayWithin(cfg: Config, now: int, steps: seq<Step>, h: Hash)
    ensures var st := Run(cfg, EMPTY, now, steps).0;
      && (h in st.access ==> ScopesWithin(st, h, st.access[h]) && (st.access[h].userId != 0 ==> h in st.origin))
      && (h in st.refresh ==> ScopesWithin(st, h, st.refresh[h]) && h in st.origin)
  {
    EmptyIsFine();
    RunKeepsInv(cfg, EMPTY, now, steps);
    hide Within, Run;
  }

  // ---------------------------------------------------------------- codes

  predicate Spent(st: State, h: Hash) {
    h in st.codes && st.codes[h].consumedAt.Some?
  }

  /** Issuing tokens adds rows for the client and touches nothing else. */
  lemma IssueLeaves(cfg: Config, st: State, client: Id, user: Id, scopes: seq<string>, code: Hash, now: int,
                    broken: set<Write>)
    ensures var after := IssueTokens(cfg, st, client, user, scopes, code, now, broken).0;
      && after.clients == st.clients && after.codes == st.codes
      && (forall id :: id != client ==> Unrevoked(after.access, id) <= Unrevoked(st.access, id))
      && (forall id :: id != client ==> Unrevoked(after.refresh, id) <= Unrevoked(st.refresh, id))
  {
  }

  lemma CodeGrantLeaves(cfg: Config, st: State, t: TokenRequest, now: int, broken: set<Write>)
    ensures var after := CodeGrant(cfg, st, t, now, broken).0;
      && after.clients == st.clients
      && (forall h :: Spent(st, h) ==> Spent(after, h))
      && (forall id :: id != t.clientId ==> Unrevoked(after.access, id) <= Unrevoked(st.access, id))
      && (forall id :: id != t.clientId ==> Unrevoked(after.refresh, id) <= Unrevoked(st.refresh, id))
  {
    if CodeRefusal(st, t, now).None? {
      PassedMeansKnown(st, t, now);
      hide CodeRefusal, CodeMismatch, IssueTokens, Unrevoked;
      var h := Hash(t.code);
      IssueLeaves(cfg, ConsumeCode(st, h, now), t.clientId, st.codes[h].userId, st.codes[h].scopes, h, now, broken);
    }
  }

  lemma RefreshGrantLeaves(cfg: Config, st: State, t: TokenRequest, now: int, broken: set<Write>)
    ensures var after := RefreshGrant(cfg, st, t, now, broken).0;
      && after.clients == st.clients && after.codes == st.codes
      && (forall id :: id != t.clientId ==> Unrevoked(after.access, id) <= Unrevoked(st.access, id))
      && (forall id :: id != t.clientId ==> Unrevoked(after.refresh, id) <= Unrevoked(st.refresh, id))
  {
    if RefreshRefusal(st, t, now).None? {
      var h := Hash(t.refreshToken);
      var rotated := Rotated(cfg, st, h, now, broken);
      assert forall id :: Unrevoked(rotated.refresh, id) <= Unrevoked(st.refresh, id);
      hide Rotated, RefreshRefusal, IssueTokens, Unrevoked;
      RotatedLeaves(cfg, st, h, now, broken);
      var scopes := if t.scopes != [] then t.scopes else st.refresh[h].scopes;
      IssueLeaves(cfg, rotated, t.clientId, st.refresh[h].userId, scopes,
                  if h in st.origin then st.origin[h] else h, now, broken);
    }
  }

  lemma RotatedLeaves(cfg: Config, st: State, h: Hash, now: int, broken: set<Write>)
    requires h in st.refresh
    ensures Rotated(cfg, st, h, now, broken) == st.(refresh := Rotated(cfg, st, h, now, broken).refresh)
  {
  }

  /** Nothing is issued to a client that is not active. */
  lemma InactiveGetsNothing(cfg: Config, st: State, t: TokenRequest, now: int, broken: set<Write>)
    requires t.clientId in st.clients && !st.clients[t.clientId].active
    ensures Token(cfg, st, t, now, broken).0 == st && Token(cfg, st, t, now, broken).1.Failed?
  {
    hide CodeMismatch, Within, IssueTokens;
  }

  lemma TokenLeaves(cfg: Config, st: State, t: TokenRequest, now: int, broken: set<Write>)
    ensures var after := Token(cfg, st, t, now, broken).0;
      && after.clients == st.clients
      && (forall h :: Spent(st, h) ==> Spent(after, h))
      && (forall id :: id != t.clientId ==> Unrevoked(after.access, id) <= Unrevoked(st.access, id))
      && (forall id :: id != t.clientId ==> Unrevoked(after.refresh, id) <= Unrevoked(st.refresh, id))
  {
    hide CodeGrant, RefreshGrant;
    CodeGrantLeaves(cfg, st, t, now, broken);
    RefreshGrantLeaves(cfg, st, t, now, broken);
  }

  lemma SpentStays(cfg: Config, st: State, now: int, op: Op, h: Hash)
    requires Inv(st) && Spent(st, h)
    ensures Spent(Apply(cfg, st, now, op).0, h)
  {
    hide Token, Refusal, Within, CodesOk, AccessOk, RefreshOk;
    if op.DoToken? {
      TokenLeaves(cfg, st, op.t, now, op.broken);
      hide Unrevoked;
    }
  }

  /** Once a code grant has passed its checks, successful or not, no later request with that code
      gets a token in any run. */
  lemma {:induction false} ExchangedOnce(cfg: Config, st: State, now: int, h: Hash, steps: seq<Step>,
                                         t: TokenRequest, broken: set<Write>)
    requires Inv(st) && Spent(st, h) && Hash(t.code) == h
    ensures var (after, later) := Run(cfg, st, now, steps);
      CodeGrant(cfg, after, t, later, broken).0 == after && CodeGrant(cfg, after, t, later, broken).1.Failed?
    decreases |steps|
  {
    hide Inv, Apply;
    if steps != [] {
      var later := now + steps[0].pause;
      ApplyKeeps(cfg, st, later, steps[0].op);
      SpentStays(cfg, st, later, steps[0].op, h);
      ExchangedOnce(cfg, Apply(cfg, st, later, steps[0].op).0, later, h, steps[1..], t, broken);
    }
  }

  /** A code grant spends its code exactly when it passes the checks before the update: also when
      it is then refused for the wrong client, redirect URI or verifier. */
  lemma CodeGrantSpends(cfg: Config, st: State, t: TokenRequest, now: int, broken: set<Write>)
    ensures CodeRefusal(st, t, now).None? ==> Spent(CodeGrant(cfg, st, t, now, broken).0, Hash(t.code))
    ensures CodeRefusal(st, t, now).Some? ==>
      CodeGrant(cfg, st, t, now, broken) == (st, Failed(CodeRefusal(st, t, now).value))
    ensures CodeGrant(cfg, st, t, now, broken).1.Issued? ==>
      && CodeRefusal(st, t, now).None?
      && st.codes[Hash(t.code)].clientId == t.clientId && st.codes[Hash(t.code)].redirectURI == t.redirectURI
  {
    hide CodeRefusal, VerifyPKCE;
    if CodeRefusal(st, t, now).None? {
      PassedMeansKnown(st, t, now);
    }
  }

  lemma PassedMeansKnown(st: State, t: TokenRequest, now: int)
    requires CodeRefusal(st, t, now).None?
    ensures Hash(t.code) in st.codes && t.clientId in st.clients
  {
  }

  /** The wrong client, the wrong redirect URI: refused, no token issued, and the code is spent,
      so that no later request of any run gets anything for it. */
  lemma MismatchSpends(cfg: Config, st: State, t: TokenRequest, now: int, broken: set<Write>,
                       steps: seq<Step>, honest: TokenRequest, unbroken: set<Write>)
    requires Inv(st) && CodeRefusal(st, t, now).None?
    requires st.codes[Hash(t.code)].clientId != t.clientId || st.codes[Hash(t.code)].redirectURI != t.redirectURI
    requires honest.code == t.code
    ensures var (after, reply) := CodeGrant(cfg, st, t, now, broken);
      && reply == Failed(InvalidGrant) && Spent(after, Hash(t.code))
      && after.access == st.access && after.refresh == st.refresh
      && var (end, later) := Run(cfg, after, now, steps);
      CodeGrant(cfg, end, honest, later, unbroken).0 == end && CodeGrant(cfg, end, honest, later, unbroken).1.Failed?
  {
    CodeGrantSpends(cfg, st, t, now, broken);
    CodeGrantKeeps(cfg, st, t, now, broken);
    var after := CodeGrant(cfg, st, t, now, broken).0;
    assert after.access == st.access && after.refresh == st.refresh;
    hide Inv, CodeGrant, CodeRefusal, Spent, Run;
    ExchangedOnce(cfg, after, now, Hash(t.code), steps, honest, unbroken);
  }

  /** Such a state is reachable for every configuration: two clients register, a user authorizes
      the first, and the second presents the code. */
  lemma StolenCodeIsSpent(cfg: Config) returns (steps: seq<Step>, t: TokenRequest)
    requires cfg.codeTTL > 0
    ensures var st := Run(cfg, EMPTY, 0, steps).0;
      && CodeRefusal(st, t, 0).None? && st.codes[Hash(t.code)].clientId != t.clientId
      && CodeGrant(cfg, st, t, 0, {}).1 == Failed(InvalidGrant) && Spent(CodeGrant(cfg, st, t, 0, {}).0, Hash(t.code))
  {
    var register := DoRegister(true, ["https://app"], [], []);
    var authorize := DoAuthorize(Authorization(1, 9, "https://app", "code", [], "", "", true));
    t := TokenRequest("authorization_code", 3, 4, 5, "https://app", "", 0, []);
    steps := [Step(0, register), Step(0, register), Step(0, authorize)];
    var one := Apply(cfg, EMPTY, 0, register).0;
    var two := Apply(cfg, one, 0, register).0;
    var three := Apply(cfg, two, 0, authorize).0;
    assert Hash(5) in three.codes && three.codes[Hash(5)].clientId == 1;
    assert CodeRefusal(three, t, 0).None?;
    hide Apply, CodeRefusal, CodeGrant, Spent;
    ThreeSteps(cfg, EMPTY, 0, steps);
    RunKeepsInv(cfg, EMPTY, 0, steps);
    MismatchSpends(cfg, three, t, 0, {}, [], t, {});
  }

  lemma ThreeSteps(cfg: Config, st: State, now: int, steps: seq<Step>)
    requires |steps| == 3 && forall i :: 0 <= i < 3 ==> steps[i].pause == 0
    ensures var one := Apply(cfg, st, now, steps[0].op).0;
      var two := Apply(cfg, one, now, steps[1].op).0;
      Run(cfg, st, now, steps) == (Apply(cfg, two, now, steps[2].op).0, now)
  {
    hide Apply;
    var one := Apply(cfg, st, now, steps[0].op).0;
    var two := Apply(cfg, one, now, steps[1].op).0;
    assert steps[1..][0] == steps[1] && steps[1..][1..] == [steps[2]] && [steps[2]][1..] == [];
    assert Run(cfg, st, now, steps) == Run(cfg, one, now, steps[1..]);
    assert Run(cfg, one, now, steps[1..]) == Run(cfg, two, now, [steps[2]]);
  }

  // ---------------------------------------------------------------- revoked clients

  /** Unrevoked tokens of a client. */
  function Unrevoked(rows: map<Hash, Grant>, client: Id): set<Hash> {
    set h | h in rows && rows[h].clientId == client && rows[h].revokedAt.None?
  }

  /** The client is out, and only these tokens of it are not revoked. */
  predicate Out(st: State, id: Id, left: set<Hash>) {
    && id in st.clients && !st.clients[id].active
    && Unrevoked(st.access, id) <= left && Unrevoked(st.refresh, id) <= left
  }

  lemma RevokedClientIsOut(st: State, id: Id, now: int, broken: set<Write>)
    requires RevokeClient(st, id, now, broken).1.Done?
    ensures Out(RevokeClient(st, id, now, broken).0, id,
      (if UpdateAccess in broken then Unrevoked(st.access, id) else {})
      + (if UpdateRefresh in broken then Unrevoked(st.refresh, id) else {}))
  {
  }

  lemma TokenKeepsOut(cfg: Config, st: State, now: int, t: TokenRequest, broken: set<Write>, id: Id, left: set<Hash>)
    requires Inv(st) && Out(st, id, left)
    ensures Out(Token(cfg, st, t, now, broken).0, id, left)
  {
    hide Inv, Token, Unrevoked;
    if t.clientId == id {
      InactiveGetsNothing(cfg, st, t, now, broken);
    } else {
      TokenLeaves(cfg, st, t, now, broken);
    }
  }

  lemma OutStays(cfg: Config, st: State, now: int, op: Op, id: Id, left: set<Hash>)
    requires Inv(st) && Out(st, id, left)
    ensures Out(Apply(cfg, st, now, op).0, id, left)
  {
    if op.DoToken? {
      TokenKeepsOut(cfg, st, now, op.t, op.broken, id, left);
      hide Token, Out;
    } else {
      hide Token, Refusal, Within, CodesOk, AccessOk, RefreshOk;
    }
  }

  /** After RevokeClient, whatever happens next, the only tokens of the client that can be active
      are those whose update failed then: none, if both updates were made. */
  lemma {:induction false} RevokedClientStaysSilent(cfg: Config, st: State, now: int, id: Id, left: set<Hash>,
                                                    steps: seq<Step>, token: Id)
    requires Inv(st) && Out(st, id, left)
    ensures var (after, later) := Run(cfg, st, now, steps);
      var seen := Introspect(after, token, later);
      seen.Some? && seen.value.clientId == id ==> Hash(token) in left
    decreases |steps|
  {
    hide Inv, Apply, Out;
    if steps == [] {
      var seen := Introspect(st, token, now);
      if seen.Some? && seen.value.clientId == id {
        ActiveIsUnrevoked(st, now, id, left, token);
      }
    } else {
      var later := now + steps[0].pause;
      ApplyKeeps(cfg, st, later, steps[0].op);
      OutStays(cfg, st, later, steps[0].op, id, left);
      RevokedClientStaysSilent(cfg, Apply(cfg, st, later, steps[0].op).0, later, id, left, steps[1..], token);
    }
  }

  lemma ActiveIsUnrevoked(st: State, now: int, id: Id, left: set<Hash>, token: Id)
    requires Out(st, id, left) && Introspect(st, token, now).Some? && Introspect(st, token, now).value.clientId == id
    ensures Hash(token) in left
  {
  }

  /** Right after a revocation the client's active tokens are exactly those that were active and
      whose table was not updated. */
  lemma ActiveAfterRevocation(st: State, id: Id, now: int, broken: set<Write>, token: Id)
    requires Inv(st) && RevokeClient(st, id, now, broken).1.Done?
    ensures var after := RevokeClient(st, id, now, broken).0;
      var (was, seen) := (Introspect(st, token, now), Introspect(after, token, now));
      (seen.Some? && seen.value.clientId == id) <==>
        (was.Some? && was.value.clientId == id
         && (if Hash(token) in st.access then UpdateAccess in broken else UpdateRefresh in broken))
  {
    hide CodesOk, AccessOk, RefreshOk;
  }
}
