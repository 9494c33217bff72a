/** Exactly when each core operation succeeds, and what it then leaves in the Store. */
module CoreExact {
  import opened Wrappers
  import opened Identifiers
  import opened Core
  import opened CoreLaws
  import opened CoreRuns

  /** A session as it is opened: fresh, for this user, for a whole session lifetime. */
  predicate IsOpened(cfg: Config, st: Store, after: Store, issued: Issued, user: Id, now: int) {
    var s := issued.session;
    && s.hash == Hash(issued.token) && 0 < issued.token && s.hash !in st.sessions
    && after.sessions == st.sessions[s.hash := s]
    && s.userId == user && s.createdAt == now && s.expiresAt == now + cfg.sessionTTL && s.revokedAt == None
  }

  lemma OpeningIsFresh(cfg: Config, st: Store, user: Id, now: int)
    requires WellFormed(st)
    ensures var issued := NewSession(cfg, st, user, now);
      IsOpened(cfg, st, WithSession(st, issued.session), issued, user, now)
  {
    hide UsersOk, AccountsOk, CredentialsOk, OneActive;
  }

  // ---------------------------------------------------------------- signing up and in

  /** A sign-up succeeds exactly with a valid new address and a password of permitted length, if
      no write fails; the user starts unverified and has a session unless the email must be
      verified first. Otherwise nothing changes. */
  lemma SignedUpExactlyWhen(cfg: Config, st: Store, address: string, password: string, now: int, broken: set<Call>)
    requires WellFormed(st)
    ensures var (after, reply) := SignedUp(cfg, st, address, password, now, broken);
      && (reply.Entered? <==>
          && cfg.normalize(address).Some? && cfg.minLength <= |password| <= cfg.maxLength
          && (forall u :: u in st.users ==> st.users[u].email != cfg.normalize(address).value)
          && InsertUser !in broken && InsertAccount !in broken && InsertCredential !in broken
          && (cfg.verificationRequired || InsertSession !in broken))
      && (reply.Entered? ==>
          var u := reply.user;
          && u.id !in st.users && Some(u.email) == cfg.normalize(address) && !u.verified
          && u.createdAt == now && u.updatedAt == now && after.users == st.users[u.id := u]
          && after.accounts.Keys == st.accounts.Keys + {u.id} && after.tokens == st.tokens
          && (reply.session.None? <==> cfg.verificationRequired)
          && (reply.session.None? ==> after.sessions == st.sessions)
          && (reply.session.Some? ==> IsOpened(cfg, st, after, reply.session.value, u.id, now)))
      && (!reply.Entered? ==> after == st && reply.Failed?)
      && (reply == Failed(InvalidEmail) <==> cfg.normalize(address).None?)
      && (reply == Failed(InvalidPassword) <==>
          cfg.normalize(address).Some? && !(cfg.minLength <= |password| <= cfg.maxLength))
  {
    hide AccountsOk, CredentialsOk, OneActive;
  }

  /** A session is created exactly for a user that exists. */
  lemma OpenedExactlyWhen(cfg: Config, st: Store, user: Id, now: int)
    requires WellFormed(st)
    ensures var (after, reply) := SessionCreated(cfg, st, user, now);
      && (reply.Opened? <==> user in st.users)
      && (reply.Opened? ==>
          && IsOpened(cfg, st, after, reply.issued, user, now)
          && after.users == st.users && after.accounts == st.accounts && after.credentials == st.credentials
          && after.tokens == st.tokens)
      && (!reply.Opened? ==> after == st && reply == Failed(UserNotFound))
  {
    hide WellFormed, IsOpened, NewSession;
    OpeningIsFresh(cfg, st, user, now);
  }

  /** A token resolves exactly to the session stored under its hash, while that is unrevoked and
      unexpired, and to its user. */
  lemma ResolvedExactlyWhen(st: Store, token: Id, now: int)
    ensures forall s, u :: Resolve(st, token, now) == Some((s, u)) <==>
      && token != 0 && Hash(token) in st.sessions && st.sessions[Hash(token)] == s
      && s.revokedAt == None && now < s.expiresAt && s.userId in st.users && st.users[s.userId] == u
  {
  }

  // ---------------------------------------------------------------- tokens

  /** A token is issued exactly for a purpose, a subject and a positive lifetime. */
  lemma IssuedExactlyWhen(st: Store, purpose: Purpose, subject: Id, ttl: int, now: int)
    ensures var (after, reply) := TokenIssued(st, purpose, subject, ttl, now);
      && (reply.Sent? <==> purpose != Plugin("") && subject != 0 && ttl > 0)
      && (reply.Sent? ==>
          && 0 < reply.token && after.tokens.Keys == st.tokens.Keys + {Hash(reply.token)}
          && (forall h :: h in st.tokens && h != Hash(reply.token) ==> after.tokens[h] == st.tokens[h])
          && var t := after.tokens[Hash(reply.token)];
          && t.purpose == purpose && t.subject == subject && t.expiresAt == now + ttl && t.usedAt == None
          && after == st.(tokens := after.tokens, next := after.next) && st.next < after.next)
      && (!reply.Sent? ==> after == st && reply.Failed?)
  {
  }

  /** Exactly an unused, unexpired token of the purpose is consumed, and only that row changes. */
  lemma ConsumedExactlyWhen(st: Store, purpose: Purpose, token: Id, now: int, broken: set<Call>)
    ensures var r := Consumed(st, purpose, token, now, broken);
      && (r.Ok? <==>
          && token != 0 && FindToken !in broken && MarkToken !in broken && Hash(token) in st.tokens
          && var t := st.tokens[Hash(token)];
          t.purpose == purpose && t.usedAt == None && now < t.expiresAt)
      && (r.Ok? ==>
          var t := st.tokens[Hash(token)];
          r.value == (st.(tokens := st.tokens[Hash(token) := t.(usedAt := Some(now))]), t.subject))
  {
  }

  /** Revoking removes exactly the tokens of this purpose and subject. */
  lemma RevokedExactly(st: Store, purpose: Purpose, subject: Id)
    ensures var after := TokensRevoked(st, purpose, subject).0;
      && (forall h :: h in after.tokens <==>
            h in st.tokens && (st.tokens[h].purpose != purpose || st.tokens[h].subject != subject))
      && (forall h :: h in after.tokens ==> after.tokens[h] == st.tokens[h])
      && after == st.(tokens := after.tokens) && TokensRevoked(st, purpose, subject).1 == Done
  {
  }

  /** A purge removes exactly the rows that expired before now, which nobody can tell: every
      token resolves and is consumed at every time from now on as before. */
  lemma PurgeIsInvisible(st: Store, now: int, later: nat, token: Id, purpose: Purpose, broken: set<Call>)
    ensures var after := Purged(st, now).0;
      && (forall h :: h in after.sessions <==> h in st.sessions && now <= st.sessions[h].expiresAt)
      && (forall h :: h in after.sessions ==> after.sessions[h] == st.sessions[h])
      && (forall h :: h in after.tokens <==> h in st.tokens && now <= st.tokens[h].expiresAt)
      && (forall h :: h in after.tokens ==> after.tokens[h] == st.tokens[h])
      && after == st.(sessions := after.sessions, tokens := after.tokens) && Purged(st, now).1 == Done
      && Resolve(after, token, now + later) == Resolve(st, token, now + later)
      && (Consumed(after, purpose, token, now + later, broken).Ok? <==>
          Consumed(st, purpose, token, now + later, broken).Ok?)
  {
  }

  // ---------------------------------------------------------------- passwords

  /** The password of the user can be replaced, if no call of the rotation fails. */
  ghost predicate Replaceable(st: Store, user: Id, broken: set<Call>) {
    && user in st.accounts && HasPassword(st, user)
    && broken !! {FindAccount, FindCredential, RevokeCredential, InsertCredential}
  }

  /** A change succeeds exactly with a new password of permitted length and the current one of
      the user, if no call fails whose error counts. */
  lemma ChangedExactlyWhen(cfg: Config, st: Store, user: Id, current: string, password: string,
                           currentSession: Id, keepOthers: bool, now: int, broken: set<Call>)
    ensures var (after, reply) :=
        PasswordChanged(cfg, st, user, current, password, currentSession, keepOthers, now, broken);
      && (reply == Done <==>
          && cfg.minLength <= |password| <= cfg.maxLength && Replaceable(st, user, broken)
          && cfg.verify(st.credentials[PasswordOf(st, user)].secret, current)
          && (keepOthers || (
              && ListSessions !in broken
              && (currentSession != 0 ==> forall h :: h in ActiveOf(st.sessions, user, currentSession) ==>
                    MarkSession(h) !in broken))))
      && (reply == Done ==> after.users == st.users && after.accounts == st.accounts && after.tokens == st.tokens)
      && (reply == Failed(InvalidPassword) <==> !(cfg.minLength <= |password| <= cfg.maxLength))
      && (reply == Failed(InvalidCredentials) <==>
          && cfg.minLength <= |password| <= cfg.maxLength && FindAccount !in broken
          && (user in st.accounts ==> FindCredential !in broken && !Authenticates(cfg, st, user, current)))
  {
    hide HasPassword, PasswordOf, Replaced;
    forall h | h in ActiveOf(st.sessions, user, currentSession)
      ensures MarkSession(h) in broken <==> h in Refused(ActiveOf(st.sessions, user, currentSession), broken)
    {
    }
  }

  /** An unused and unexpired reset token. */
  predicate Redeemable(st: Store, token: Id, now: int) {
    && token != 0 && Hash(token) in st.tokens
    && var t := st.tokens[Hash(token)];
    t.purpose == PasswordReset && t.usedAt == None && now < t.expiresAt
  }

  /** A reset succeeds exactly with a new password of permitted length and an unused, unexpired
      reset token of a user with a password, if no call fails whose error counts. */
  lemma ResetExactlyWhen(cfg: Config, st: Store, token: Id, password: string, now: int, broken: set<Call>)
    ensures var reply := PasswordWasReset(cfg, st, token, password, now, broken).1;
      && (reply == Done <==>
          && cfg.minLength <= |password| <= cfg.maxLength && broken !! {FindToken, MarkToken, ListSessions}
          && Redeemable(st, token, now) && Replaceable(st, st.tokens[Hash(token)].subject, broken))
      && (reply == Failed(InvalidPassword) <==> !(cfg.minLength <= |password| <= cfg.maxLength))
      && (broken == {} && cfg.minLength <= |password| <= cfg.maxLength ==>
          reply == Done || reply == Failed(InvalidToken))
  {
    hide PasswordOf, Replaced, Mark, ActiveOf, Refused, HasActive;
  }
}
