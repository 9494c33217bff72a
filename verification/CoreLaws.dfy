/** What every run of the core operations keeps: well-formed sessions, users and accounts, one
    active password per account, and a history that is never rewritten. */
module CoreLaws {
  import opened Wrappers
  import opened Identifiers
  import opened Core

  // ---------------------------------------------------------------- invariants

  predicate UsersOk(users: map<Id, User>, next: Id) {
    && (forall u :: u in users ==> users[u].id == u && 0 < u < next)
    && (forall u, v :: u in users && v in users && users[u].email == users[v].email ==> u == v)
  }

  predicate SessionsOk(sessions: map<Hash, Session>, next: Id) {
    && (forall h :: h in sessions ==> sessions[h].hash == h && h.token < next && 0 < sessions[h].id < next)
    && (forall g, h :: g in sessions && h in sessions && sessions[g].id == sessions[h].id ==> g == h)
  }

  predicate AccountsOk(accounts: map<Id, Id>, next: Id) {
    && (forall u :: u in accounts ==> 0 < u < next && accounts[u] < next)
    && (forall u, v :: u in accounts && v in accounts && accounts[u] == accounts[v] ==> u == v)
  }

  predicate CredentialsOk(credentials: map<Id, Credential>, next: Id) {
    forall c :: c in credentials ==> credentials[c].id == c && c < next && credentials[c].accountId < next
  }

  /** Every password account has exactly one active password credential. */
  ghost predicate OneActive(accounts: map<Id, Id>, credentials: map<Id, Credential>) {
    && (forall c, d ::
      (c in credentials && d in credentials && credentials[c].revokedAt.None? && credentials[d].revokedAt.None?
       && credentials[c].accountId == credentials[d].accountId) ==> c == d)
    && (forall u :: u in accounts ==> HasActive(credentials, accounts[u]))
  }

  ghost predicate WellFormed(st: Store) {
    && 0 < st.next && UsersOk(st.users, st.next) && SessionsOk(st.sessions, st.next)
    && AccountsOk(st.accounts, st.next) && CredentialsOk(st.credentials, st.next)
    && OneActive(st.accounts, st.credentials)
  }

  // ---------------------------------------------------------------- histories

  /** Unchanged, or revoked just now. */
  predicate SameOrRevoked(s: Session, after: Session, now: int) {
    after == s || (s.revokedAt.None? && after == s.(revokedAt := Some(now)))
  }

  /** A revoked session stays as it is, only expired ones disappear, new ones have new tokens. */
  predicate SessionsEvolve(before: map<Hash, Session>, after: map<Hash, Session>, next: Id, now: int) {
    && (forall h :: h in before && h !in after ==> before[h].expiresAt < now)
    && (forall h :: h in before && h in after ==> SameOrRevoked(before[h], after[h], now))
    && (forall h :: h in after && h !in before ==> next <= h.token)
  }

  /** No credential disappears and a revoked one never changes again. */
  predicate CredentialsEvolve(before: map<Id, Credential>, after: map<Id, Credential>) {
    forall c :: c in before ==> c in after && (before[c].revokedAt.Some? ==> after[c] == before[c])
  }

  predicate Evolves(st: Store, after: Store, now: int) {
    && st.next <= after.next
    && SessionsEvolve(st.sessions, after.sessions, st.next, now)
    && CredentialsEvolve(st.credentials, after.credentials)
  }

  ghost predicate Keeps(st: Store, after: Store, now: int) {
    WellFormed(after) && Evolves(st, after, now)
  }

  lemma KeepsInTurn(a: Store, b: Store, c: Store, now: int)
    requires WellFormed(a) && Keeps(a, b, now) && Keeps(b, c, now)
    ensures Keeps(a, c, now)
  {
    hide OneActive, UsersOk, AccountsOk;
  }

  // ---------------------------------------------------------------- single changes

  lemma MarkKeeps(st: Store, keys: set<Hash>, now: int)
    requires WellFormed(st) && forall h :: h in keys && h in st.sessions ==> st.sessions[h].revokedAt.None?
    ensures Keeps(st, st.(sessions := Mark(st.sessions, keys, now)), now)
  {
    hide OneActive, UsersOk, AccountsOk;
  }

  lemma SessionKeeps(cfg: Config, st: Store, user: Id, now: int)
    requires WellFormed(st)
    ensures Keeps(st, WithSession(st, NewSession(cfg, st, user, now).session), now)
  {
    hide OneActive;
  }

  lemma PurgeKeeps(st: Store, now: int)
    requires WellFormed(st)
    ensures Keeps(st, Purged(st, now).0, now)
  {
    hide OneActive, UsersOk, AccountsOk;
  }

  /** Tokens are under no invariant here. */
  lemma TokensKeep(st: Store, tokens: map<Hash, Token>, next: Id, now: int)
    requires WellFormed(st) && st.next <= next
    ensures Keeps(st, st.(tokens := tokens, next := next), now)
  {
    hide OneActive;
  }

  lemma VerifyKeeps(st: Store, token: Id, now: int)
    requires WellFormed(st)
    ensures Keeps(st, EmailVerified(st, token, now).0, now)
  {
    hide OneActive, AccountsOk;
  }

  lemma MoreIds(st: Store, next: Id)
    requires WellFormed(st) && st.next <= next
    ensures UsersOk(st.users, next) && SessionsOk(st.sessions, next) && AccountsOk(st.accounts, next)
    ensures forall now :: SessionsEvolve(st.sessions, st.sessions, st.next, now)
  {
  }

  /** The first credential of a fresh account. */
  lemma FirstPassword(accounts: map<Id, Id>, credentials: map<Id, Credential>, u: Id, a: Id, c: Credential)
    requires OneActive(accounts, credentials) && u !in accounts && c.id !in credentials && ActiveFor(c, a)
    requires forall d :: d in credentials ==> credentials[d].accountId != a
    ensures OneActive(accounts[u := a], credentials[c.id := c])
  {
    var more := credentials[c.id := c];
    assert ActiveFor(more[c.id], a);
    forall v | v in accounts ensures HasActive(more, accounts[v]) {
      assert ActiveFor(more[ActiveIn(credentials, accounts[v])], accounts[v]);
    }
  }

  lemma EnrollKeeps(cfg: Config, st: Store, email: string, password: string, now: int)
    requires WellFormed(st) && !HasEmail(st.users, email)
    ensures Keeps(st, Enrolled(cfg, st, email, password, now), now)
  {
    hide OneActive, HasActive, SessionsOk;
    var (u, a, c) := (st.next, st.next + 1, st.next + 2);
    FirstPassword(st.accounts, st.credentials, u, a, Credential(c, u, a, cfg.hash(password, c), now, None));
    MoreIds(st, st.next + 3);
  }

  /** Replacing one active credential keeps exactly one for every account. */
  lemma NextPassword(accounts: map<Id, Id>, credentials: map<Id, Credential>, c: Id, id: Id, user: Id,
                     secret: string, now: int)
    requires OneActive(accounts, credentials) && id !in credentials
    requires c in credentials && credentials[c].revokedAt.None?
    ensures OneActive(accounts, Replaced(credentials, c, id, user, secret, now))
  {
    var more := Replaced(credentials, c, id, user, secret, now);
    forall v | v in accounts ensures HasActive(more, accounts[v]) {
      var d := ActiveIn(credentials, accounts[v]);
      assert ActiveFor(more[if d == c then id else d], accounts[v]);
    }
  }

  lemma RotateKeeps(st: Store, user: Id, secret: string, now: int, broken: set<Call>)
    requires WellFormed(st) && Rotated(st, user, secret, now, broken).Ok?
    ensures Keeps(st, Rotated(st, user, secret, now, broken).value, now)
  {
    hide OneActive, HasActive, SessionsOk, UsersOk;
    NextPassword(st.accounts, st.credentials, PasswordOf(st, user), st.next, user, secret, now);
    MoreIds(st, st.next + 1);
  }

  // ---------------------------------------------------------------- operations

  lemma RevokeUserKeeps(st: Store, user: Id, except: Id, now: int, broken: set<Call>)
    requires WellFormed(st) && RevokeUser(st, user, except, now, broken).Ok?
    ensures Keeps(st, RevokeUser(st, user, except, now, broken).value, now)
  {
    var keys := ActiveOf(st.sessions, user, except);
    MarkKeeps(st, keys - Refused(keys, broken), now);
    hide WellFormed, Evolves;
  }

  lemma SignUpKeeps(cfg: Config, st: Store, email: string, password: string, now: int, broken: set<Call>)
    requires WellFormed(st) && !HasEmail(st.users, email)
    ensures Keeps(st, Admitted(cfg, st, email, password, now, broken).0, now)
  {
    var enrolled := Enrolled(cfg, st, email, password, now);
    EnrollKeeps(cfg, st, email, password, now);
    SessionKeeps(cfg, enrolled, st.next, now);
    KeepsInTurn(st, enrolled, WithSession(enrolled, NewSession(cfg, enrolled, st.next, now).session), now);
    KeepsItself(st, now);
    hide WellFormed, Evolves, Enrolled;
  }

  lemma KeepsItself(st: Store, now: int)
    requires WellFormed(st)
    ensures Keeps(st, st, now)
  {
    hide WellFormed;
  }

  lemma SignInKeeps(cfg: Config, st: Store, address: string, password: string, now: int)
    requires WellFormed(st)
    ensures Keeps(st, SignedIn(cfg, st, address, password, now).0, now)
  {
    KeepsItself(st, now);
    hide WellFormed, Evolves, HasPassword;
    if SignedIn(cfg, st, address, password, now).1.Entered? {
      SessionKeeps(cfg, st, st.users[ByEmail(st.users, cfg.normalize(address).value)].id, now);
    }
  }

  lemma ChangeKeeps(cfg: Config, st: Store, now: int, op: Op)
    requires WellFormed(st) && op.ChangePassword?
    ensures Keeps(st, Apply(cfg, st, now, op).0, now)
  {
    KeepsItself(st, now);
    hide WellFormed, Evolves, Rotated, RevokeUser, HasPassword;
    if Apply(cfg, st, now, op).1 == Done {
      RotateKeeps(st, op.user, cfg.hash(op.password, st.next), now, op.broken);
      if !op.keepOthers {
        var rotated := Rotated(st, op.user, cfg.hash(op.password, st.next), now, op.broken).value;
        RevokeUserKeeps(rotated, op.user, op.currentSession, now, op.broken);
        KeepsInTurn(st, rotated, Apply(cfg, st, now, op).0, now);
      }
    }
  }

  lemma ConsumedKeeps(st: Store, purpose: Purpose, token: Id, now: int, broken: set<Call>)
    requires WellFormed(st) && Consumed(st, purpose, token, now, broken).Ok?
    ensures Keeps(st, Consumed(st, purpose, token, now, broken).value.0, now)
    ensures Consumed(st, purpose, token, now, broken).value.0.next == st.next
  {
    TokensKeep(st, Consumed(st, purpose, token, now, broken).value.0.tokens, st.next, now);
    hide WellFormed, Evolves;
  }

  lemma ResetKeeps(cfg: Config, st: Store, now: int, op: Op)
    requires WellFormed(st) && op.ResetPassword?
    ensures Keeps(st, Apply(cfg, st, now, op).0, now)
  {
    KeepsItself(st, now);
    hide WellFormed, Evolves, Consumed, Rotated, RevokeUser;
    if Apply(cfg, st, now, op).1 == Done {
      var (consumed, user) := Consumed(st, PasswordReset, op.token, now, op.broken).value;
      ConsumedKeeps(st, PasswordReset, op.token, now, op.broken);
      var secret := cfg.hash(op.password, st.next);
      RotateKeeps(consumed, user, secret, now, op.broken);
      var rotated := Rotated(consumed, user, secret, now, op.broken).value;
      KeepsInTurn(st, consumed, rotated, now);
      RevokeUserKeeps(rotated, user, 0, now, op.broken);
      KeepsInTurn(st, rotated, Apply(cfg, st, now, op).0, now);
    }
  }

  /** Operations on sessions. */
  lemma SessionOpKeeps(cfg: Config, st: Store, now: int, op: Op)
    requires WellFormed(st)
    requires op.SignOut? || op.CreateSession? || op.RevokeSession? || op.RevokeUserSessions? || op.RevokeInStore?
    ensures Keeps(st, Apply(cfg, st, now, op).0, now)
  {
    hide WellFormed, Evolves, RevokeUser;
    KeepsItself(st, now);
    match op
    case SignOut(token) =>
      if SignedOut(st, token, now).0 != st {
        MarkKeeps(st, {Hash(token)}, now);
      }
    case CreateSession(user) =>
      if user in st.users {
        SessionKeeps(cfg, st, user, now);
      }
    case RevokeSession(id) => MarkKeeps(st, WithId(st.sessions, id), now);
    case RevokeUserSessions(user, except, broken) =>
      if RevokeUser(st, user, except, now, broken).Ok? {
        RevokeUserKeeps(st, user, except, now, broken);
      }
    case RevokeInStore(user, broken) =>
      if RevokeUser(st, user, 0, now, broken).Ok? {
        RevokeUserKeeps(st, user, 0, now, broken);
      }
    case _ =>
  }

  lemma SignUpOpKeeps(cfg: Config, st: Store, now: int, op: Op)
    requires WellFormed(st) && op.SignUp?
    ensures Keeps(st, Apply(cfg, st, now, op).0, now)
  {
    hide WellFormed, Evolves, Admitted, HasEmail;
    KeepsItself(st, now);
    if cfg.normalize(op.address).Some? && !HasEmail(st.users, cfg.normalize(op.address).value) {
      SignUpKeeps(cfg, st, cfg.normalize(op.address).value, op.password, now, op.broken);
    }
  }

  lemma TokenOpKeeps(cfg: Config, st: Store, now: int, op: Op)
    requires WellFormed(st) && (op.IssueToken? || op.RevokeTokens?)
    ensures Keeps(st, Apply(cfg, st, now, op).0, now)
  {
    hide WellFormed, Evolves;
    TokensKeep(st, Apply(cfg, st, now, op).0.tokens, Apply(cfg, st, now, op).0.next, now);
  }

  /** Every operation, successful, failed or rolled back. */
  lemma ApplyKeeps(cfg: Config, st: Store, now: int, op: Op)
    requires WellFormed(st)
    ensures Keeps(st, Apply(cfg, st, now, op).0, now)
  {
    hide WellFormed, Keeps, SignedUp, SignedIn, PasswordChanged, PasswordWasReset, EmailVerified, Purged, TokenIssued,
         TokensRevoked, SignedOut, SessionCreated, SessionRevoked, UserRevoked;
    match op
    case SignUp(_, _, _) => SignUpOpKeeps(cfg, st, now, op);
    case SignIn(address, password) => SignInKeeps(cfg, st, address, password, now);
    case ChangePassword(_, _, _, _, _, _) => ChangeKeeps(cfg, st, now, op);
    case ResetPassword(_, _, _) => ResetKeeps(cfg, st, now, op);
    case VerifyEmail(token) => VerifyKeeps(st, token, now);
    case IssueToken(_, _, _) => TokenOpKeeps(cfg, st, now, op);
    case RevokeTokens(_, _) => TokenOpKeeps(cfg, st, now, op);
    case PurgeExpired => PurgeKeeps(st, now);
    case GetSession(_) => KeepsItself(st, now);
    case _ => SessionOpKeeps(cfg, st, now, op);
  }
}
