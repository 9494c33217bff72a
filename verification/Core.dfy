/** The state of the engine's Store and, as functions on it, the core operations of an engine
    that has no cache (session.go, signin.go, password.go, verification.go, auth.go over
    adapter/bridge/bridge.go). */
module Core {
  import opened Wrappers
  import opened Identifiers

  datatype User = User(id: Id, email: string, verified: bool, createdAt: int, updatedAt: int)

  datatype Credential = Credential(id: Id, userId: Id, accountId: Id, secret: string, createdAt: int,
                                   revokedAt: Option<int>)

  datatype Session = Session(id: Id, userId: Id, hash: Hash, createdAt: int, expiresAt: int, revokedAt: Option<int>) {
    predicate Valid(now: int) {
      revokedAt.None? && now < expiresAt
    }
  }

  datatype Purpose = EmailVerification | PasswordReset | Plugin(name: string)

  datatype Token = Token(id: Id, purpose: Purpose, subject: Id, expiresAt: int, usedAt: Option<int>)

  /** Accounts are the password accounts, by user; sessions and tokens are stored by hash. */
  datatype Store = Store(
    users: map<Id, User>,
    accounts: map<Id, Id>,
    credentials: map<Id, Credential>,
    sessions: map<Hash, Session>,
    tokens: map<Hash, Token>,
    next: Id)

  datatype Config = Config(
    sessionTTL: int,
    sessionCacheTTL: int,
    userCacheTTL: int,
    minLength: nat,
    maxLength: nat,
    verificationRequired: bool,
    normalize: string -> Option<string>,
    hash: (string, Id) -> string,
    verify: (string, string) -> bool)
  {
    predicate Allows(password: string) {
      minLength <= |password| <= maxLength
    }
  }

  datatype Error =
    | InvalidEmail | InvalidPassword | EmailAlreadyExists | InvalidCredentials | EmailNotVerified
    | UserNotFound | InvalidToken | NotFound | StoreFailure

  /** The Store calls of a multi-step operation; an operation names those that fail. */
  datatype Call =
    | FindToken | MarkToken | FindAccount | FindCredential | RevokeCredential | InsertCredential
    | ListSessions | MarkSession(h: Hash) | InsertUser | InsertAccount | InsertSession

  datatype Issued = Issued(session: Session, token: Id)

  datatype Reply =
    | Failed(error: Error)
    | Done
    | Entered(user: User, session: Option<Issued>)
    | Opened(issued: Issued)
    | Verified(user: User)
    | Sent(token: Id)
    | Resolved(found: Option<(Session, User)>)

  // ---------------------------------------------------------------- reading

  ghost predicate HasEmail(users: map<Id, User>, email: string) {
    exists u :: u in users && users[u].email == email
  }

  ghost function ByEmail(users: map<Id, User>, email: string): (u: Id)
    requires HasEmail(users, email)
    ensures u in users && users[u].email == email
  {
    var u :| u in users && users[u].email == email; u
  }

  predicate ActiveFor(c: Credential, account: Id) {
    c.accountId == account && c.revokedAt.None?
  }

  ghost predicate HasActive(credentials: map<Id, Credential>, account: Id) {
    exists c :: c in credentials && ActiveFor(credentials[c], account)
  }

  /** The active password credential of an account. */
  ghost function ActiveIn(credentials: map<Id, Credential>, account: Id): (c: Id)
    requires HasActive(credentials, account)
    ensures c in credentials && ActiveFor(credentials[c], account)
  {
    var c :| c in credentials && ActiveFor(credentials[c], account); c
  }

  ghost predicate HasPassword(st: Store, user: Id) {
    user in st.accounts && HasActive(st.credentials, st.accounts[user])
  }

  ghost function PasswordOf(st: Store, user: Id): Id
    requires HasPassword(st, user)
  {
    ActiveIn(st.credentials, st.accounts[user])
  }

  ghost predicate Authenticates(cfg: Config, st: Store, user: Id, password: string) {
    HasPassword(st, user) && cfg.verify(st.credentials[PasswordOf(st, user)].secret, password)
  }

  /** What GetSession answers without a cache. */
  function Resolve(st: Store, token: Id, now: int): Option<(Session, User)> {
    var h := Hash(token);
    if token != 0 && h in st.sessions && st.sessions[h].Valid(now) && st.sessions[h].userId in st.users then
      Some((st.sessions[h], st.users[st.sessions[h].userId]))
    else None
  }

  // ---------------------------------------------------------------- sessions

  function NewSession(cfg: Config, st: Store, user: Id, now: int): Issued {
    Issued(Session(st.next, user, Hash(st.next + 1), now, now + cfg.sessionTTL, None), st.next + 1)
  }

  function WithSession(st: Store, s: Session): Store {
    st.(sessions := st.sessions[s.hash := s], next := st.next + 2)
  }

  function Mark(sessions: map<Hash, Session>, keys: set<Hash>, now: int): map<Hash, Session> {
    map h | h in sessions :: if h in keys then sessions[h].(revokedAt := Some(now)) else sessions[h]
  }

  /** The unrevoked sessions of a user, except one. */
  function ActiveOf(sessions: map<Hash, Session>, user: Id, except: Id): set<Hash> {
    set h | h in sessions && sessions[h].userId == user && sessions[h].id != except && sessions[h].revokedAt.None?
  }

  function Refused(keys: set<Hash>, broken: set<Call>): set<Hash> {
    set h | h in keys && MarkSession(h) in broken
  }

  /** Revoking all sessions of a user ignores the calls that fail; sparing one does not. */
  function RevokeUser(st: Store, user: Id, except: Id, now: int, broken: set<Call>): Result<Store, Error> {
    var keys := ActiveOf(st.sessions, user, except);
    var refused := Refused(keys, broken);
    if ListSessions in broken || (except != 0 && refused != {}) then Err(StoreFailure)
    else Ok(st.(sessions := Mark(st.sessions, keys - refused, now)))
  }

  function SessionCreated(cfg: Config, st: Store, user: Id, now: int): (Store, Reply) {
    if user !in st.users then (st, Failed(UserNotFound))
    else
      var issued := NewSession(cfg, st, user, now);
      (WithSession(st, issued.session), Opened(issued))
  }

  function WithId(sessions: map<Hash, Session>, id: Id): set<Hash> {
    set h | h in sessions && sessions[h].id == id && sessions[h].revokedAt.None?
  }

  function SessionRevoked(st: Store, id: Id, now: int): (Store, Reply) {
    (st.(sessions := Mark(st.sessions, WithId(st.sessions, id), now)), Done)
  }

  function UserRevoked(st: Store, user: Id, except: Id, now: int, broken: set<Call>): (Store, Reply) {
    match RevokeUser(st, user, except, now, broken)
    case Ok(next) => (next, Done)
    case Err(e) => (st, Failed(e))
  }

  function SignedOut(st: Store, token: Id, now: int): (Store, Reply) {
    var h := Hash(token);
    if token != 0 && h in st.sessions && st.sessions[h].revokedAt.None? then
      (st.(sessions := Mark(st.sessions, {h}, now)), Done)
    else (st, Done)
  }

  function Purged(st: Store, now: int): (Store, Reply) {
    (st.(sessions := map h | h in st.sessions && st.sessions[h].expiresAt >= now :: st.sessions[h],
         tokens := map h | h in st.tokens && st.tokens[h].expiresAt >= now :: st.tokens[h]),
     Done)
  }

  // ---------------------------------------------------------------- signing in and up

  function Enrolled(cfg: Config, st: Store, email: string, password: string, now: int): Store {
    var (u, a, c) := (st.next, st.next + 1, st.next + 2);
    st.(users := st.users[u := User(u, email, false, now, now)],
        accounts := st.accounts[u := a],
        credentials := st.credentials[c := Credential(c, u, a, cfg.hash(password, c), now, None)],
        next := st.next + 3)
  }

  /** The transaction of a sign-up: user, account, credential and, unless the email must be
      verified first, a session. */
  function Admitted(cfg: Config, st: Store, email: string, password: string, now: int, broken: set<Call>)
    : (Store, Reply)
  {
    var enrolled := Enrolled(cfg, st, email, password, now);
    var u := User(st.next, email, false, now, now);
    if InsertUser in broken || InsertAccount in broken || InsertCredential in broken then (st, Failed(StoreFailure))
    else if cfg.verificationRequired then (enrolled, Entered(u, None))
    else if InsertSession in broken then (st, Failed(StoreFailure))
    else
      var issued := NewSession(cfg, enrolled, u.id, now);
      (WithSession(enrolled, issued.session), Entered(u, Some(issued)))
  }

  ghost function SignedUp(cfg: Config, st: Store, address: string, password: string, now: int, broken: set<Call>)
    : (Store, Reply)
  {
    match cfg.normalize(address)
    case None => (st, Failed(InvalidEmail))
    case Some(email) =>
      if !cfg.Allows(password) then (st, Failed(InvalidPassword))
      else if HasEmail(st.users, email) then (st, Failed(EmailAlreadyExists))
      else Admitted(cfg, st, email, password, now, broken)
  }

  ghost function SignedIn(cfg: Config, st: Store, address: string, password: string, now: int): (Store, Reply) {
    match cfg.normalize(address)
    case None => (st, Failed(InvalidCredentials))
    case Some(email) =>
      if |password| > cfg.maxLength || !HasEmail(st.users, email) then (st, Failed(InvalidCredentials))
      else
        var u := ByEmail(st.users, email);
        if !Authenticates(cfg, st, u, password) then (st, Failed(InvalidCredentials))
        else if cfg.verificationRequired && !st.users[u].verified then (st, Failed(EmailNotVerified))
        else
          var issued := NewSession(cfg, st, st.users[u].id, now);
          (WithSession(st, issued.session), Entered(st.users[u], Some(issued)))
  }

  // ---------------------------------------------------------------- tokens and passwords

  function TokenIssued(st: Store, purpose: Purpose, subject: Id, ttl: int, now: int): (Store, Reply) {
    if purpose == Plugin("") || subject == 0 || ttl <= 0 then (st, Failed(StoreFailure))
    else
      var t := Token(st.next, purpose, subject, now + ttl, None);
      (st.(tokens := st.tokens[Hash(st.next + 1) := t], next := st.next + 2), Sent(st.next + 1))
  }

  function TokensRevoked(st: Store, purpose: Purpose, subject: Id): (Store, Reply) {
    (st.(tokens := map h | h in st.tokens && !(st.tokens[h].purpose == purpose && st.tokens[h].subject == subject)
                   :: st.tokens[h]),
     Done)
  }

  function Consumed(st: Store, purpose: Purpose, token: Id, now: int, broken: set<Call>): Result<(Store, Id), Error> {
    var h := Hash(token);
    if token == 0 then Err(InvalidToken)
    else if FindToken in broken then Err(StoreFailure)
    else if h !in st.tokens then Err(InvalidToken)
    else
      var t := st.tokens[h];
      if t.purpose != purpose || t.usedAt.Some? || t.expiresAt <= now then Err(InvalidToken)
      else if MarkToken in broken then Err(StoreFailure)
      else Ok((st.(tokens := st.tokens[h := t.(usedAt := Some(now))]), t.subject))
  }

  /** Revokes a credential and adds its successor for the same account. */
  function Replaced(credentials: map<Id, Credential>, c: Id, id: Id, user: Id, secret: string, now: int)
    : map<Id, Credential>
    requires c in credentials
  {
    credentials[c := credentials[c].(revokedAt := Some(now))]
               [id := Credential(id, user, credentials[c].accountId, secret, now, None)]
  }

  ghost function Rotated(st: Store, user: Id, secret: string, now: int, broken: set<Call>): Result<Store, Error> {
    if FindAccount in broken then Err(StoreFailure)
    else if user !in st.accounts then Err(NotFound)
    else if FindCredential in broken then Err(StoreFailure)
    else if !HasPassword(st, user) then Err(NotFound)
    else if RevokeCredential in broken || InsertCredential in broken then Err(StoreFailure)
    else
      Ok(st.(credentials := Replaced(st.credentials, PasswordOf(st, user), st.next, user, secret, now),
             next := st.next + 1))
  }

  ghost function PasswordChanged(cfg: Config, st: Store, user: Id, current: string, password: string,
                                currentSession: Id, keepOthers: bool, now: int, broken: set<Call>): (Store, Reply) {
    if !cfg.Allows(password) then (st, Failed(InvalidPassword))
    else if FindAccount in broken then (st, Failed(StoreFailure))
    else if user !in st.accounts then (st, Failed(InvalidCredentials))
    else if FindCredential in broken then (st, Failed(StoreFailure))
    else if !Authenticates(cfg, st, user, current) then (st, Failed(InvalidCredentials))
    else
      match Rotated(st, user, cfg.hash(password, st.next), now, broken)
      case Err(e) => (st, Failed(e))
      case Ok(rotated) =>
        if keepOthers then (rotated, Done)
        else
          match RevokeUser(rotated, user, currentSession, now, broken)
          case Err(e) => (st, Failed(e))
          case Ok(next) => (next, Done)
  }

  ghost function PasswordWasReset(cfg: Config, st: Store, token: Id, password: string, now: int, broken: set<Call>)
    : (Store, Reply)
  {
    if !cfg.Allows(password) then (st, Failed(InvalidPassword))
    else
      match Consumed(st, PasswordReset, token, now, broken)
      case Err(e) => (st, Failed(e))
      case Ok((consumed, user)) =>
        match Rotated(consumed, user, cfg.hash(password, st.next), now, broken)
        case Err(e) => (st, Failed(if e == NotFound then InvalidToken else e))
        case Ok(rotated) =>
          match RevokeUser(rotated, user, 0, now, broken)
          case Err(e) => (st, Failed(e))
          case Ok(next) => (next, Done)
  }

  function EmailVerified(st: Store, token: Id, now: int): (Store, Reply) {
    match Consumed(st, EmailVerification, token, now, {})
    case Err(e) => (st, Failed(e))
    case Ok((consumed, user)) =>
      if user !in st.users then (st, Failed(InvalidToken))
      else if st.users[user].verified then (consumed, Verified(st.users[user]))
      else
        var u := st.users[user].(verified := true, updatedAt := now);
        (consumed.(users := st.users[user := u]), Verified(u))
  }

  // ---------------------------------------------------------------- runs

  datatype Op =
    | SignUp(address: string, password: string, broken: set<Call>)
    | SignIn(address: string, password: string)
    | SignOut(token: Id)
    | CreateSession(user: Id)
    | RevokeSession(id: Id)
    | RevokeUserSessions(user: Id, except: Id, broken: set<Call>)
    | ChangePassword(user: Id, current: string, password: string, currentSession: Id, keepOthers: bool,
                     broken: set<Call>)
    | ResetPassword(token: Id, password: string, broken: set<Call>)
    | VerifyEmail(token: Id)
    | IssueToken(purpose: Purpose, subject: Id, ttl: int)
    | RevokeTokens(purpose: Purpose, subject: Id)
    | PurgeExpired
    | RevokeInStore(user: Id, broken: set<Call>)  // a plugin revoking sessions behind the engine's back
    | GetSession(token: Id)

  /** One operation of the engine without a cache. */
  ghost function Apply(cfg: Config, st: Store, now: int, op: Op): (Store, Reply) {
    match op
    case SignUp(address, password, broken) => SignedUp(cfg, st, address, password, now, broken)
    case SignIn(address, password) => SignedIn(cfg, st, address, password, now)
    case SignOut(token) => SignedOut(st, token, now)
    case CreateSession(user) => SessionCreated(cfg, st, user, now)
    case RevokeSession(id) => SessionRevoked(st, id, now)
    case RevokeUserSessions(user, except, broken) => UserRevoked(st, user, except, now, broken)
    case ChangePassword(user, current, password, currentSession, keepOthers, broken) =>
      PasswordChanged(cfg, st, user, current, password, currentSession, keepOthers, now, broken)
    case ResetPassword(token, password, broken) => PasswordWasReset(cfg, st, token, password, now, broken)
    case VerifyEmail(token) => EmailVerified(st, token, now)
    case IssueToken(purpose, subject, ttl) => TokenIssued(st, purpose, subject, ttl, now)
    case RevokeTokens(purpose, subject) => TokensRevoked(st, purpose, subject)
    case PurgeExpired => Purged(st, now)
    case RevokeInStore(user, broken) => UserRevoked(st, user, 0, now, broken)
    case GetSession(token) => (st, Resolved(Resolve(st, token, now)))
  }
}
