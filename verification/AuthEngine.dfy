/** The engine with its caches (session.go, cache.go, user.go, signin.go, password.go,
    verification.go, auth.go): every operation refines the one of the engine without a cache. */
module AuthEngine {
  import opened Wrappers
  import opened Identifiers
  import opened Core
  import opened CoreLaws
  import opened CoreRuns
  import opened TtlCache
  import opened CacheLaws
  import opened Revoking

  class Auth {
    const cfg: Config
    /** Whether cache calls always succeed; otherwise any of them may fail. */
    const reliable: bool
    const sessionCache: Cache<Hash, Session>
    const userCache: Cache<Id, User>
    var store: Store
    var now: int

    constructor (cfg: Config, reliable: bool, start: int)
      ensures Valid() && Coherent() && store == EMPTY && now == start
      ensures this.cfg == cfg && this.reliable == reliable && fresh(sessionCache) && fresh(userCache)
    {
      this.cfg, this.reliable, now, store := cfg, reliable, start, EMPTY;
      sessionCache := new Cache();
      userCache := new Cache();
      new;
      EmptyIsWellFormed();
    }

    ghost predicate Valid()
      reads this, sessionCache
    {
      WellFormed(store) && Bounded(cfg.sessionCacheTTL, store.sessions, store.next, sessionCache.entries, now)
    }

    ghost predicate Coherent()
      reads this, sessionCache, userCache
    {
      SessionsAgree(store.sessions, sessionCache.entries, now) && UsersAgree(store.users, userCache.entries, now)
    }

    // -------------------------------------------------------------- cache policy (cache.go)

    method CachedSession(h: Hash) returns (s: Option<Session>)
      modifies sessionCache
      ensures Fewer(sessionCache.entries, old(sessionCache.entries))
      ensures s.Some? ==>
        && h in old(sessionCache.entries) && now < old(sessionCache.entries)[h].expiresAt
        && old(sessionCache.entries)[h] == Value(s.value, old(sessionCache.entries)[h].expiresAt)
        && sessionCache.entries == old(sessionCache.entries)
      ensures reliable && s.None? ==>
        h !in LiveAt(old(sessionCache.entries), now) || old(sessionCache.entries)[h].Counter?
    {
      if !reliable {
        if * {
          return None;
        }
      }
      s := sessionCache.Get(now, h, _ => None);
    }

    method CacheSession(s: Session)
      modifies sessionCache
      ensures var ttl := if cfg.sessionCacheTTL < s.expiresAt - now then cfg.sessionCacheTTL else s.expiresAt - now;
        var written := old(sessionCache.entries)[s.hash := Value(s, now + ttl)];
        if ttl <= 0 then sessionCache.entries == old(sessionCache.entries)
        else sessionCache.entries == written || (!reliable && sessionCache.entries == old(sessionCache.entries))
    {
      var ttl := if cfg.sessionCacheTTL < s.expiresAt - now then cfg.sessionCacheTTL else s.expiresAt - now;
      if ttl <= 0 {
        return;
      }
      if !reliable {
        if * {
          return;
        }
      }
      var _ := sessionCache.Set(now, s.hash, s, ttl);
    }

    /** cacheSession of a session in the Store. */
    method CacheStored(s: Session)
      requires Valid() && s.hash in store.sessions && store.sessions[s.hash] == s && s.revokedAt.None?
      modifies sessionCache
      ensures Valid()
      ensures SessionsAgree(store.sessions, old(sessionCache.entries), now) ==>
        SessionsAgree(store.sessions, sessionCache.entries, now)
      ensures reliable && cfg.sessionCacheTTL > 0 && now < s.expiresAt ==> s.hash in LiveAt(sessionCache.entries, now)
    {
      var life := if cfg.sessionCacheTTL < s.expiresAt - now then cfg.sessionCacheTTL else s.expiresAt - now;
      CachingKeeps(cfg.sessionCacheTTL, store.sessions, store.next, sessionCache.entries, s.hash, life, now);
      hide Bounded, SessionsAgree, WellFormed;
      CacheSession(s);
    }

    method InvalidateSessions(hashes: seq<Hash>)
      modifies sessionCache
      ensures Fewer(sessionCache.entries, old(sessionCache.entries))
      ensures reliable ==> forall h :: h in hashes ==> h !in sessionCache.entries
    {
      for i := 0 to |hashes|
        invariant Fewer(sessionCache.entries, old(sessionCache.entries))
        invariant reliable ==> forall h :: h in hashes[..i] ==> h !in sessionCache.entries
      {
        var deleted := true;
        if !reliable {
          deleted := *;
        }
        if deleted {
          sessionCache.Delete(hashes[i]);
        }
      }
    }

    method CachedUser(id: Id) returns (u: Option<User>)
      modifies userCache
      ensures Fewer(userCache.entries, old(userCache.entries))
      ensures u.Some? ==>
        && id in old(userCache.entries) && now < old(userCache.entries)[id].expiresAt
        && old(userCache.entries)[id] == Value(u.value, old(userCache.entries)[id].expiresAt)
        && userCache.entries == old(userCache.entries)
    {
      if !reliable {
        if * {
          return None;
        }
      }
      u := userCache.Get(now, id, _ => None);
    }

    method CacheUser(u: User)
      modifies userCache
      ensures var written := old(userCache.entries)[u.id := Value(u, now + cfg.userCacheTTL)];
        if cfg.userCacheTTL <= 0 then userCache.entries == old(userCache.entries)
        else userCache.entries == written || (!reliable && userCache.entries == old(userCache.entries))
    {
      if !reliable {
        if * {
          return;
        }
      }
      var _ := userCache.Set(now, u.id, u, cfg.userCacheTTL);
    }

    /** cacheUser of a user in the Store. */
    method CacheStoredUser(u: User)
      requires u.id in store.users && store.users[u.id] == u
      modifies userCache
      ensures UsersAgree(store.users, old(userCache.entries), now) ==> UsersAgree(store.users, userCache.entries, now)
    {
      CacheUser(u);
    }

    method InvalidateUser(id: Id)
      modifies userCache
      ensures Fewer(userCache.entries, old(userCache.entries))
      ensures reliable ==> id !in userCache.entries
    {
      if !reliable {
        if * {
          return;
        }
      }
      userCache.Delete(id);
    }

    // -------------------------------------------------------------- reading

    /** user.go: cache, then Store, then cache. */
    method GetUser(id: Id) returns (u: Option<User>)
      requires Valid()
      modifies userCache
      ensures reliable && old(Coherent()) ==>
        Coherent() && u == if id in store.users then Some(store.users[id]) else None
      ensures u.None? ==> id !in store.users
      ensures u.Some? && reliable && cfg.userCacheTTL > 0 ==> id in LiveAt(userCache.entries, now)
    {
      if id == 0 {
        return None;
      }
      u := CachedUser(id);
      if u.Some? {
        return;
      }
      if id !in store.users {
        return None;
      }
      u := Some(store.users[id]);
      CacheUser(u.value);
    }

    /** session.go:89-124. With a reliable cache it answers as without one; with any cache it
        never returns a session revoked CacheTTL ago or longer, or expired. */
    method GetSession(token: Id) returns (r: Option<(Session, User)>)
      requires Valid()
      modifies sessionCache, userCache
      ensures Valid()
      ensures reliable && old(Coherent()) ==> Coherent() && r == Resolve(store, token, now)
      ensures r.Some? ==> r.value.0.hash == Hash(token) && r.value.0.Valid(now)
      ensures r.Some? ==> NotLongRevoked(cfg.sessionCacheTTL, store, token, now)
      ensures r.Some? && reliable && cfg.sessionCacheTTL > 0 ==> Hash(token) in LiveAt(sessionCache.entries, now)
      ensures r.Some? && reliable && cfg.userCacheTTL > 0 ==> r.value.0.userId in LiveAt(userCache.entries, now)
    {
      if token == 0 {
        return None;
      }
      var h := Hash(token);
      ghost var was := sessionCache.entries;
      var cached := CachedSession(h);
      FewerKeeps(cfg.sessionCacheTTL, store.sessions, store.next, was, sessionCache.entries, now);
      var s;
      if cached.Some? {
        HitsAreNotLongRevoked(cfg.sessionCacheTTL, store, was, token, now);
        s := cached.value;
      } else {
        if h !in store.sessions {
          return None;
        }
        s := store.sessions[h];
        if s.Valid(now) {
          CacheStored(s);
        }
      }
      if !s.Valid(now) {
        InvalidateSessions([h]);
        return None;
      }
      var u := GetUser(s.userId);
      if u.None? {
        InvalidateSessions([h]);
        return None;
      }
      r := Some((s, u.value));
    }

    // -------------------------------------------------------------- after a change of the Store

    /** The invariants after the Store has taken a step of an operation, before the caches follow. */
    lemma StoreMoved(st: Store, op: Op)
      requires WellFormed(st) && store == Apply(cfg, st, now, op).0
      requires Bounded(cfg.sessionCacheTTL, st.sessions, st.next, sessionCache.entries, now)
      ensures Valid() && SessionsEvolve(st.sessions, store.sessions, st.next, now)
    {
      hide Apply, Bounded, WellFormed, SessionsEvolve;
      ApplyKeeps(cfg, st, now, op);
      BoundedEvolves(cfg.sessionCacheTTL, st.sessions, store.sessions, st.next, store.next, sessionCache.entries, now);
    }

    /** Coherence once the entries of whatever changed are gone. */
    lemma Settled(st: Store, was: SessionEntries, users: UserEntries)
      requires SessionsAgree(st.sessions, was, now) && UsersAgree(st.users, users, now)
      requires Bounded(cfg.sessionCacheTTL, st.sessions, st.next, was, now)
      requires SessionsEvolve(st.sessions, store.sessions, st.next, now)
      requires Fewer(sessionCache.entries, was) && Fewer(userCache.entries, users)
      requires forall h :: h in sessionCache.entries && h in st.sessions && h in store.sessions ==>
        store.sessions[h] == st.sessions[h]
      requires forall u :: u in userCache.entries && u in st.users ==> u in store.users && store.users[u] == st.users[u]
      ensures Coherent()
    {
      AgreeEvolves(cfg.sessionCacheTTL, st.sessions, store.sessions, st.next, was, sessionCache.entries, now);
      hide Bounded, SessionsAgree, SessionsEvolve;
    }

    // -------------------------------------------------------------- sessions

    method SignOut(token: Id) returns (reply: Reply)
      requires Valid()
      modifies this, sessionCache
      ensures Valid() && now == old(now)
      ensures (store, reply) == SignedOut(old(store), token, now)
      ensures reliable && old(Coherent()) ==> Coherent()
    {
      reply := Done;
      var h := Hash(token);
      if token == 0 || h !in store.sessions {
        return;
      }
      ghost var st, was := store, sessionCache.entries;
      var s := store.sessions[h];
      if s.revokedAt.None? {
        store := store.(sessions := RevokeStored(store.sessions, s.id, now));
        RevokedById(st.sessions, st.next, h, now);
      }
      StoreMoved(st, Op.SignOut(token));
      InvalidateSessions([h]);
      FewerKeeps(cfg.sessionCacheTTL, store.sessions, store.next, was, sessionCache.entries, now);
      if reliable && old(Coherent()) {
        Settled(st, was, userCache.entries);
      }
    }

    method RevokeSession(id: Id) returns (reply: Reply)
      requires Valid()
      modifies this, sessionCache
      ensures Valid() && now == old(now)
      ensures (store, reply) == SessionRevoked(old(store), id, now)
      ensures reliable && old(Coherent()) ==> Coherent()
    {
      reply := Done;
      if h :| h in store.sessions && store.sessions[h].id == id {
        ghost var st, was := store, sessionCache.entries;
        RevokedById(st.sessions, st.next, h, now);
        MarkNone(st.sessions, now);
        OneWithId(st.sessions, st.next, h);
        if store.sessions[h].revokedAt.None? {
          store := store.(sessions := RevokeStored(store.sessions, id, now));
        }
        StoreMoved(st, Op.RevokeSession(id));
        InvalidateSessions([h]);
        FewerKeeps(cfg.sessionCacheTTL, store.sessions, store.next, was, sessionCache.entries, now);
        if reliable && old(Coherent()) {
          Settled(st, was, userCache.entries);
        }
      } else {
        assert WithId(store.sessions, id) == {};
        MarkNone(store.sessions, now);
      }
    }

    /** The Store's revocation of all sessions of a user, which ignores the updates that fail. */
    method RevokeByUser(user: Id, broken: set<Call>) returns (r: Result<seq<Hash>, Error>)
      requires SessionsOk(store.sessions, store.next)
      modifies this`store
      ensures match RevokeUser(old(store), user, 0, now, broken)
        case Ok(next) =>
          && r.Ok? && store == next
          && forall h :: h in r.value <==> h in ActiveOf(old(store).sessions, user, 0)
        case Err(e) => r == Err(e)
    {
      if ListSessions in broken {
        return Err(StoreFailure);
      }
      var refused := Refused(store.sessions.Keys, broken);
      RefusedAmong(store.sessions.Keys, ActiveOf(store.sessions, user, 0), broken);
      var after, revoked := RevokeEvery(store.sessions, store.next, user, now, refused);
      store := store.(sessions := after);
      r := Ok(revoked);
    }

    /** revokeUserSessions inside a transaction: an error leaves the Store half changed. */
    method RevokeUserStored(user: Id, except: Id, broken: set<Call>) returns (r: Result<seq<Hash>, Error>)
      requires SessionsOk(store.sessions, store.next)
      modifies this`store
      ensures match RevokeUser(old(store), user, except, now, broken)
        case Ok(next) =>
          && r.Ok? && store == next
          && forall h :: h in r.value <==> h in ActiveOf(old(store).sessions, user, except)
        case Err(e) => r == Err(e)
    {
      if except == 0 {
        r := RevokeByUser(user, broken);
        return;
      }
      if ListSessions in broken {
        return Err(StoreFailure);
      }
      var refused := Refused(store.sessions.Keys, broken);
      RefusedAmong(store.sessions.Keys, ActiveOf(store.sessions, user, except), broken);
      var after, revoked, ok := RevokeOthers(store.sessions, store.next, user, except, now, refused);
      store := store.(sessions := after);
      r := if ok then Ok(revoked) else Err(StoreFailure);
    }

    method RevokeUserSessions(user: Id, except: Id, broken: set<Call>) returns (reply: Reply)
      requires Valid()
      modifies this, sessionCache
      ensures Valid() && now == old(now)
      ensures (store, reply) == UserRevoked(old(store), user, except, now, broken)
      ensures reliable && old(Coherent()) ==> Coherent()
    {
      ghost var st, was := store, sessionCache.entries;
      var snapshot := store;
      var r := RevokeUserStored(user, except, broken);
      if r.Err? {
        store := snapshot;
        return Failed(r.error);
      }
      StoreMoved(st, Op.RevokeUserSessions(user, except, broken));
      InvalidateSessions(r.value);
      FewerKeeps(cfg.sessionCacheTTL, store.sessions, store.next, was, sessionCache.entries, now);
      if reliable && old(Coherent()) {
        Settled(st, was, userCache.entries);
      }
      reply := Done;
    }

    /** A plugin calling Sessions().RevokeByUser itself: no invalidation follows. */
    method RevokeInStore(user: Id, broken: set<Call>) returns (reply: Reply)
      requires Valid()
      modifies this
      ensures Valid() && now == old(now)
      ensures (store, reply) == UserRevoked(old(store), user, 0, now, broken)
    {
      ghost var st := store;
      var snapshot := store;
      var r := RevokeByUser(user, broken);
      if r.Err? {
        store := snapshot;
        return Failed(r.error);
      }
      StoreMoved(st, Op.RevokeInStore(user, broken));
      reply := Done;
    }

    /** newSession, inside a transaction. */
    method NewStored(user: Id) returns (issued: Issued)
      modifies this`store
      ensures issued == NewSession(cfg, old(store), user, now)
      ensures store == WithSession(old(store), issued.session)
    {
      var id, token := store.next, store.next + 1;
      var s := Session(id, user, Hash(token), now, now + cfg.sessionTTL, None);
      store := store.(sessions := store.sessions[s.hash := s], next := store.next + 2);
      issued := Issued(s, token);
    }

    method CreateSession(user: Id) returns (reply: Reply)
      requires Valid()
      modifies this, sessionCache
      ensures Valid() && now == old(now)
      ensures (store, reply) == SessionCreated(cfg, old(store), user, now)
      ensures reliable && old(Coherent()) ==> Coherent()
    {
      if user !in store.users {
        return Failed(UserNotFound);
      }
      ghost var st := store;
      var issued := NewStored(user);
      StoreMoved(st, Op.CreateSession(user));
      if reliable && old(Coherent()) {
        Settled(st, sessionCache.entries, userCache.entries);
      }
      CacheStored(issued.session);
      reply := Opened(issued);
    }

    method PurgeExpired() returns (reply: Reply)
      requires Valid()
      modifies this
      ensures Valid() && now == old(now)
      ensures (store, reply) == Purged(old(store), now)
      ensures old(Coherent()) ==> Coherent()
    {
      ghost var st := store;
      store := store.(
        sessions := map h | h in store.sessions && store.sessions[h].expiresAt >= now :: store.sessions[h]);
      store := store.(tokens := map h | h in store.tokens && store.tokens[h].expiresAt >= now :: store.tokens[h]);
      StoreMoved(st, Op.PurgeExpired);
      if old(Coherent()) {
        Settled(st, sessionCache.entries, userCache.entries);
      }
      reply := Done;
    }

    // -------------------------------------------------------------- passwords and tokens

    /** The user with this email, if any. */
    method FindByEmail(email: string) returns (u: Option<Id>)
      requires UsersOk(store.users, store.next)
      ensures u == if HasEmail(store.users, email) then Some(ByEmail(store.users, email)) else None
    {
      if id :| id in store.users && store.users[id].email == email {
        return Some(id);
      }
      u := None;
    }

    /** The active password credential of an account, if any. */
    method FindActive(account: Id) returns (c: Option<Id>)
      requires OneActive(store.accounts, store.credentials)
      ensures c == if HasActive(store.credentials, account) then Some(ActiveIn(store.credentials, account)) else None
    {
      if id :| id in store.credentials && ActiveFor(store.credentials[id], account) {
        OnlyActive(store.accounts, store.credentials, account, id);
        return Some(id);
      }
      c := None;
    }

    method VerifyPassword(user: Id, password: string, broken: set<Call>) returns (e: Option<Error>)
      requires OneActive(store.accounts, store.credentials)
      ensures FindAccount in broken ==> e == Some(StoreFailure)
      ensures FindAccount !in broken && user !in store.accounts ==> e == Some(InvalidCredentials)
      ensures FindAccount !in broken && user in store.accounts && FindCredential in broken ==> e == Some(StoreFailure)
      ensures FindAccount !in broken && user in store.accounts && FindCredential !in broken ==>
        e == if Authenticates(cfg, store, user, password) then None else Some(InvalidCredentials)
    {
      if FindAccount in broken {
        return Some(StoreFailure);
      }
      if user !in store.accounts {
        return Some(InvalidCredentials);
      }
      if FindCredential in broken {
        return Some(StoreFailure);
      }
      var c := FindActive(store.accounts[user]);
      if c.None? || !cfg.verify(store.credentials[c.value].secret, password) {
        return Some(InvalidCredentials);
      }
      e := None;
    }

    /** rotatePassword inside a transaction: an error leaves the Store half changed. */
    method RotatePassword(user: Id, secret: string, broken: set<Call>) returns (e: Option<Error>)
      requires OneActive(store.accounts, store.credentials) && CredentialsOk(store.credentials, store.next)
      modifies this`store
      ensures match Rotated(old(store), user, secret, now, broken)
        case Ok(next) => e == None && store == next
        case Err(error) => e == Some(error)
      ensures store.sessions == old(store).sessions
    {
      if FindAccount in broken {
        return Some(StoreFailure);
      }
      if user !in store.accounts {
        return Some(NotFound);
      }
      if FindCredential in broken {
        return Some(StoreFailure);
      }
      var found := FindActive(store.accounts[user]);
      if found.None? {
        return Some(NotFound);
      }
      var prior := store.credentials[found.value];
      if RevokeCredential in broken {
        return Some(StoreFailure);
      }
      store := store.(credentials := store.credentials[prior.id := prior.(revokedAt := Some(now))]);
      if InsertCredential in broken {
        return Some(StoreFailure);
      }
      var c := Credential(store.next, user, prior.accountId, secret, now, None);
      store := store.(credentials := store.credentials[c.id := c], next := store.next + 1);
      e := None;
    }

    /** verification.go:39-63, without concurrent consumers. */
    method ConsumeToken(purpose: Purpose, token: Id, broken: set<Call>) returns (r: Result<Id, Error>)
      modifies this`store
      ensures match Consumed(old(store), purpose, token, now, broken)
        case Ok((next, subject)) => r == Ok(subject) && store == next
        case Err(e) => r == Err(e) && store == old(store)
      ensures store.sessions == old(store).sessions
    {
      if token == 0 {
        return Err(InvalidToken);
      }
      var h := Hash(token);
      if FindToken in broken {
        return Err(StoreFailure);
      }
      if h !in store.tokens {
        return Err(InvalidToken);
      }
      var t := store.tokens[h];
      if t.purpose != purpose || t.usedAt.Some? || t.expiresAt <= now {
        return Err(InvalidToken);
      }
      if MarkToken in broken {
        return Err(StoreFailure);
      }
      store := store.(tokens := store.tokens[h := t.(usedAt := Some(now))]);
      r := Ok(t.subject);
    }

    method IssueToken(purpose: Purpose, subject: Id, ttl: int) returns (reply: Reply)
      requires Valid()
      modifies this
      ensures Valid() && now == old(now)
      ensures (store, reply) == TokenIssued(old(store), purpose, subject, ttl, now)
      ensures old(Coherent()) ==> Coherent()
    {
      if purpose == Plugin("") || subject == 0 || ttl <= 0 {
        return Failed(StoreFailure);
      }
      ghost var st := store;
      var id, token := store.next, store.next + 1;
      store := store.(tokens := store.tokens[Hash(token) := Token(id, purpose, subject, now + ttl, None)],
                      next := store.next + 2);
      StoreMoved(st, Op.IssueToken(purpose, subject, ttl));
      reply := Sent(token);
    }

    method RevokeTokens(purpose: Purpose, subject: Id) returns (reply: Reply)
      requires Valid()
      modifies this
      ensures Valid() && now == old(now)
      ensures (store, reply) == TokensRevoked(old(store), purpose, subject)
      ensures old(Coherent()) ==> Coherent()
    {
      ghost var st := store;
      store := store.(tokens := map h | h in store.tokens
        && !(store.tokens[h].purpose == purpose && store.tokens[h].subject == subject) :: store.tokens[h]);
      StoreMoved(st, Op.RevokeTokens(purpose, subject));
      reply := Done;
    }

    /** The transaction of ChangePassword. */
    method ChangeStored(user: Id, secret: string, currentSession: Id, keepOthers: bool, broken: set<Call>)
      returns (r: Result<seq<Hash>, Error>)
      requires WellFormed(store)
      modifies this`store
      ensures match Rotated(old(store), user, secret, now, broken)
        case Err(e) => r == Err(e) && store == old(store)
        case Ok(rotated) =>
          if keepOthers then r == Ok([]) && store == rotated
          else match RevokeUser(rotated, user, currentSession, now, broken)
            case Err(e) => r == Err(e) && store == old(store)
            case Ok(next) =>
              && r.Ok? && store == next
              && forall h :: h in r.value <==> h in ActiveOf(old(store).sessions, user, currentSession)
    {
      hide SessionsOk, UsersOk, AccountsOk, CredentialsOk, OneActive, Evolves, Rotated, RevokeUser;
      var snapshot := store;
      var e := RotatePassword(user, secret, broken);
      if e.Some? {
        store := snapshot;
        return Err(e.value);
      }
      if keepOthers {
        return Ok([]);
      }
      RotateKeeps(snapshot, user, secret, now, broken);
      r := RevokeUserStored(user, currentSession, broken);
      if r.Err? {
        store := snapshot;
      }
    }

    method ChangePassword(user: Id, current: string, password: string, currentSession: Id, keepOthers: bool,
                          broken: set<Call>)
      returns (reply: Reply)
      requires Valid()
      modifies this, sessionCache
      ensures Valid() && now == old(now)
      ensures (store, reply)
        == PasswordChanged(cfg, old(store), user, current, password, currentSession, keepOthers, now, broken)
      ensures reliable && old(Coherent()) ==> Coherent()
    {
      if !cfg.Allows(password) {
        return Failed(InvalidPassword);
      }
      var e := VerifyPassword(user, current, broken);
      if e.Some? {
        return Failed(e.value);
      }
      ghost var st, was := store, sessionCache.entries;
      var r := ChangeStored(user, cfg.hash(password, store.next), currentSession, keepOthers, broken);
      if r.Err? {
        return Failed(r.error);
      }
      StoreMoved(st, Op.ChangePassword(user, current, password, currentSession, keepOthers, broken));
      InvalidateSessions(r.value);
      FewerKeeps(cfg.sessionCacheTTL, store.sessions, store.next, was, sessionCache.entries, now);
      if reliable && old(Coherent()) {
        Settled(st, was, userCache.entries);
      }
      reply := Done;
    }

    /** The transaction of ResetPassword. */
    method ResetStored(token: Id, secret: string, broken: set<Call>) returns (r: Result<seq<Hash>, Error>)
      requires WellFormed(store)
      modifies this`store
      ensures match Consumed(old(store), PasswordReset, token, now, broken)
        case Err(e) => r == Err(e) && store == old(store)
        case Ok((consumed, user)) =>
          match Rotated(consumed, user, secret, now, broken)
          case Err(e) => r == Err(if e == NotFound then InvalidToken else e) && store == old(store)
          case Ok(rotated) =>
            match RevokeUser(rotated, user, 0, now, broken)
            case Err(e) => r == Err(e) && store == old(store)
            case Ok(next) =>
              && r.Ok? && store == next
              && forall h :: h in r.value <==> h in ActiveOf(old(store).sessions, user, 0)
    {
      hide SessionsOk, UsersOk, AccountsOk, CredentialsOk, OneActive, Evolves, Consumed, Rotated, RevokeUser;
      var snapshot := store;
      var consumed := ConsumeToken(PasswordReset, token, broken);
      if consumed.Err? {
        return Err(consumed.error);
      }
      ConsumedKeeps(snapshot, PasswordReset, token, now, broken);
      ghost var mid := store;
      var user := consumed.value;
      var e := RotatePassword(user, secret, broken);
      if e.Some? {
        store := snapshot;
        return Err(if e.value == NotFound then InvalidToken else e.value);
      }
      RotateKeeps(mid, user, secret, now, broken);
      r := RevokeUserStored(user, 0, broken);
      if r.Err? {
        store := snapshot;
      }
    }

    method ResetPassword(token: Id, password: string, broken: set<Call>) returns (reply: Reply)
      requires Valid()
      modifies this, sessionCache
      ensures Valid() && now == old(now)
      ensures (store, reply) == PasswordWasReset(cfg, old(store), token, password, now, broken)
      ensures reliable && old(Coherent()) ==> Coherent()
    {
      if !cfg.Allows(password) {
        return Failed(InvalidPassword);
      }
      ghost var st, was := store, sessionCache.entries;
      var r := ResetStored(token, cfg.hash(password, store.next), broken);
      if r.Err? {
        return Failed(r.error);
      }
      StoreMoved(st, Op.ResetPassword(token, password, broken));
      InvalidateSessions(r.value);
      FewerKeeps(cfg.sessionCacheTTL, store.sessions, store.next, was, sessionCache.entries, now);
      if reliable && old(Coherent()) {
        Settled(st, was, userCache.entries);
      }
      reply := Done;
    }

    method VerifyEmail(token: Id) returns (reply: Reply)
      requires Valid()
      modifies this, userCache
      ensures Valid() && now == old(now)
      ensures (store, reply) == EmailVerified(old(store), token, now)
      ensures reliable && old(Coherent()) ==> Coherent()
    {
      ghost var st, was := store, userCache.entries;
      var snapshot := store;
      var consumed := ConsumeToken(EmailVerification, token, {});
      if consumed.Err? {
        return Failed(consumed.error);
      }
      var id := consumed.value;
      if id !in store.users {
        store := snapshot;
        return Failed(InvalidToken);
      }
      var u := store.users[id];
      if !u.verified {
        u := u.(verified := true, updatedAt := now);
        store := store.(users := store.users[u.id := u]);
      }
      StoreMoved(st, Op.VerifyEmail(token));
      InvalidateUser(u.id);
      if reliable && old(Coherent()) {
        Settled(st, sessionCache.entries, was);
      }
      reply := Verified(u);
    }

    // -------------------------------------------------------------- signing up and in

    /** The transaction of SignUp. */
    method AdmitStored(email: string, password: string, broken: set<Call>) returns (reply: Reply)
      modifies this`store
      ensures (store, reply) == Admitted(cfg, old(store), email, password, now, broken)
    {
      var snapshot := store;
      if InsertUser in broken {
        return Failed(StoreFailure);
      }
      var u := User(store.next, email, false, now, now);
      store := store.(users := store.users[u.id := u], next := store.next + 1);
      if InsertAccount in broken {
        store := snapshot;
        return Failed(StoreFailure);
      }
      var account := store.next;
      store := store.(accounts := store.accounts[u.id := account], next := store.next + 1);
      if InsertCredential in broken {
        store := snapshot;
        return Failed(StoreFailure);
      }
      var c := Credential(store.next, u.id, account, cfg.hash(password, store.next), now, None);
      store := store.(credentials := store.credentials[c.id := c], next := store.next + 1);
      if cfg.verificationRequired {
        return Entered(u, None);
      }
      if InsertSession in broken {
        store := snapshot;
        return Failed(StoreFailure);
      }
      var issued := NewStored(u.id);
      reply := Entered(u, Some(issued));
    }

    method SignUp(address: string, password: string, broken: set<Call>) returns (reply: Reply)
      requires Valid()
      modifies this, sessionCache, userCache
      ensures Valid() && now == old(now)
      ensures (store, reply) == SignedUp(cfg, old(store), address, password, now, broken)
      ensures reliable && old(Coherent()) ==> Coherent()
    {
      var email := cfg.normalize(address);
      if email.None? {
        return Failed(InvalidEmail);
      }
      if !cfg.Allows(password) {
        return Failed(InvalidPassword);
      }
      var taken := FindByEmail(email.value);
      if taken.Some? {
        return Failed(EmailAlreadyExists);
      }
      hide WellFormed, Bounded;
      ghost var st := store;
      reply := AdmitStored(email.value, password, broken);
      if reply.Failed? {
        return;
      }
      StoreMoved(st, Op.SignUp(address, password, broken));
      if reliable && old(Coherent()) {
        Settled(st, sessionCache.entries, userCache.entries);
      }
      hide UsersAgree, SessionsAgree;
      CacheStoredUser(reply.user);
      if reply.session.Some? {
        CacheStored(reply.session.value.session);
      }
    }

    method SignIn(address: string, password: string) returns (reply: Reply)
      requires Valid()
      modifies this, sessionCache, userCache
      ensures Valid() && now == old(now)
      ensures (store, reply) == SignedIn(cfg, old(store), address, password, now)
      ensures reliable && old(Coherent()) ==> Coherent()
    {
      var email := cfg.normalize(address);
      if email.None? || |password| > cfg.maxLength {
        return Failed(InvalidCredentials);
      }
      var id := FindByEmail(email.value);
      if id.None? {
        return Failed(InvalidCredentials);
      }
      var u := store.users[id.value];
      var e := VerifyPassword(u.id, password, {});
      if e.Some? {
        return Failed(e.value);
      }
      if cfg.verificationRequired && !u.verified {
        return Failed(EmailNotVerified);
      }
      ghost var st := store;
      var issued := NewStored(u.id);
      StoreMoved(st, Op.SignIn(address, password));
      if reliable && old(Coherent()) {
        Settled(st, sessionCache.entries, userCache.entries);
      }
      hide UsersAgree, SessionsAgree;
      CacheStoredUser(u);
      CacheStored(issued.session);
      reply := Entered(u, Some(issued));
    }

    // -------------------------------------------------------------- whole runs

    method Wait(pause: nat)
      requires Valid()
      modifies this
      ensures Valid() && now == old(now) + pause && store == old(store)
      ensures old(Coherent()) ==> Coherent()
    {
      now := now + pause;
    }

    method Do(op: Op) returns (reply: Reply)
      requires Valid()
      modifies this, sessionCache, userCache
      ensures Valid() && now == old(now)
      ensures store == Apply(cfg, old(store), now, op).0
      ensures !op.GetSession? || (reliable && old(Coherent())) ==> reply == Apply(cfg, old(store), now, op).1
      ensures reliable && old(Coherent()) && !op.RevokeInStore? ==> Coherent()
      ensures AnswerHolds(cfg, store, now, op, reply)
    {
      hide Valid, Coherent, SignedUp, SignedIn, SignedOut, SessionCreated, SessionRevoked, UserRevoked, PasswordChanged,
           PasswordWasReset, EmailVerified, TokenIssued, TokensRevoked, Purged, Resolve, NotLongRevoked;
      match op
      case SignUp(address, password, broken) => reply := SignUp(address, password, broken);
      case SignIn(address, password) => reply := SignIn(address, password);
      case SignOut(token) => reply := SignOut(token);
      case CreateSession(user) => reply := CreateSession(user);
      case RevokeSession(id) => reply := RevokeSession(id);
      case RevokeUserSessions(user, except, broken) => reply := RevokeUserSessions(user, except, broken);
      case ChangePassword(user, current, password, currentSession, keepOthers, broken) =>
        reply := ChangePassword(user, current, password, currentSession, keepOthers, broken);
      case ResetPassword(token, password, broken) => reply := ResetPassword(token, password, broken);
      case VerifyEmail(token) => reply := VerifyEmail(token);
      case IssueToken(purpose, subject, ttl) => reply := IssueToken(purpose, subject, ttl);
      case RevokeTokens(purpose, subject) => reply := RevokeTokens(purpose, subject);
      case PurgeExpired => reply := PurgeExpired();
      case RevokeInStore(user, broken) => reply := RevokeInStore(user, broken);
      case GetSession(token) =>
        var found := GetSession(token);
        reply := Resolved(found);
    }

    /** One step of a run. */
    method ServeOne(step: Step) returns (reply: Reply)
      requires Valid()
      modifies this, sessionCache, userCache
      ensures Valid() && now == old(now) + step.pause
      ensures store == Apply(cfg, old(store), now, step.op).0
      ensures reliable && old(Coherent()) ==> reply == Apply(cfg, old(store), now, step.op).1
      ensures reliable && old(Coherent()) && !step.op.RevokeInStore? ==> Coherent()
      ensures AnswerHolds(cfg, store, now, step.op, reply)
    {
      hide Valid, Coherent, Apply, AnswerHolds;
      Wait(step.pause);
      reply := Do(step.op);
    }

    /** Any sequence of operations. The Store ends as without a cache, whatever the cache does.
        A reliable cache, with no revocation behind the engine's back, cannot be told from no
        cache. With any cache, a session revoked CacheTTL ago is never returned. */
    method Serve(steps: seq<Step>) returns (replies: seq<Reply>)
      requires Valid()
      modifies this, sessionCache, userCache
      ensures Valid() && (store, now) == Run(cfg, old(store), old(now), steps)
      ensures reliable && old(Coherent()) && (forall i :: 0 <= i < |steps| ==> !steps[i].op.RevokeInStore?) ==>
        replies == Replies(cfg, old(store), old(now), steps)
      ensures |replies| == |steps| && forall i :: 0 <= i < |steps| ==>
        AnswerAtHolds(cfg, old(store), old(now), steps, i, replies[i])
    {
      hide Valid, Coherent, Apply, AnswerAtHolds, AnswerHolds;
      replies := [];
      ghost var st, t, clean := store, now, reliable && Coherent();
      for i := 0 to |steps|
        invariant Valid() && |replies| == i && (store, now) == Run(cfg, st, t, steps[..i])
        invariant reliable && old(Coherent()) && (forall j :: 0 <= j < i ==> !steps[j].op.RevokeInStore?) ==> clean
        invariant clean ==> reliable && Coherent() && replies == Replies(cfg, st, t, steps[..i])
        invariant forall j :: 0 <= j < i ==> AnswerAtHolds(cfg, st, t, steps, j, replies[j])
      {
        hide Run, Replies;
        OneMoreStep(cfg, st, t, steps, i, store, now);
        var reply := ServeOne(steps[i]);
        AnswerHere(cfg, st, t, steps, i, reply, store, now);
        replies := replies + [reply];
        clean := clean && !steps[i].op.RevokeInStore?;
      }
      assert steps[..|steps|] == steps;
    }
  }

  /** GetSession, whatever the cache does: no session revoked CacheTTL ago, none expired. */
  predicate AnswerHolds(cfg: Config, st: Store, now: int, op: Op, reply: Reply) {
    op.GetSession? ==>
      reply.Resolved? && (reply.found.Some? ==> NotLongRevoked(cfg.sessionCacheTTL, st, op.token, now))
  }

  /** The same of a reply in a run, on the Store it was given from. */
  ghost predicate AnswerAtHolds(cfg: Config, st: Store, now: int, steps: seq<Step>, i: nat, reply: Reply)
    requires i < |steps|
  {
    var (after, t) := Run(cfg, st, now, steps[..i + 1]);
    AnswerHolds(cfg, after, t, steps[i].op, reply)
  }

  lemma AnswerHere(cfg: Config, st: Store, now: int, steps: seq<Step>, i: nat, reply: Reply, after: Store, t: int)
    requires i < |steps| && Run(cfg, st, now, steps[..i + 1]) == (after, t)
      && AnswerHolds(cfg, after, t, steps[i].op, reply)
    ensures AnswerAtHolds(cfg, st, now, steps, i, reply)
  {
  }
}
