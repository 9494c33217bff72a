/** Between two operations of a run: how long a session is resolved, and which password a user
    signs in with. */
module CoreLives {
  import opened Wrappers
  import opened Identifiers
  import opened Core
  import opened CoreLaws
  import opened CoreRuns

  lemma {:induction false} RunsForward(cfg: Config, st: Store, now: int, steps: seq<Step>)
    ensures now <= Run(cfg, st, now, steps).1
    decreases |steps|
  {
    hide Apply;
    if steps != [] {
      var later := now + steps[0].pause;
      RunsForward(cfg, Apply(cfg, st, later, steps[0].op).0, later, steps[1..]);
    }
  }

  // ---------------------------------------------------------------- users

  /** A user stays, with the same address. */
  predicate SameUser(st: Store, after: Store, u: Id) {
    u in st.users ==>
      u in after.users && after.users[u].id == st.users[u].id && after.users[u].email == st.users[u].email
  }

  lemma UserStep(cfg: Config, st: Store, now: int, op: Op, u: Id)
    requires WellFormed(st)
    ensures SameUser(st, Apply(cfg, st, now, op).0, u)
  {
    hide SessionsOk, AccountsOk, CredentialsOk, OneActive, HasPassword, ActiveOf, Mark, Refused, Replaced;
    assert st.next !in st.users;
    match op
    case SignUp(_, _, _) =>
    case ChangePassword(_, _, _, _, _, _) =>
    case ResetPassword(_, _, _) =>
    case VerifyEmail(_) =>
    case _ =>
  }

  lemma {:induction false} UserStays(cfg: Config, st: Store, now: int, steps: seq<Step>, u: Id)
    requires WellFormed(st)
    ensures SameUser(st, Run(cfg, st, now, steps).0, u)
    decreases |steps|
  {
    hide WellFormed, Evolves, Apply;
    if steps != [] {
      var later := now + steps[0].pause;
      ApplyKeeps(cfg, st, later, steps[0].op);
      UserStep(cfg, st, later, steps[0].op, u);
      UserStays(cfg, Apply(cfg, st, later, steps[0].op).0, later, steps[1..], u);
    }
  }

  // ---------------------------------------------------------------- verified emails

  /** The operation answers that it has verified the email of this user. */
  ghost predicate Verifies(cfg: Config, st: Store, now: int, op: Op, u: Id) {
    && op.VerifyEmail? && Apply(cfg, st, now, op).1.Verified?
    && Hash(op.token) in st.tokens && st.tokens[Hash(op.token)].subject == u
  }

  /** Verification succeeds exactly with an unused, unexpired token of that purpose for a user
      that exists; the user it answers with is the one now stored, and is verified. */
  lemma VerifiedExactlyWhen(cfg: Config, st: Store, now: int, token: Id)
    requires WellFormed(st)
    ensures var (after, reply) := Apply(cfg, st, now, VerifyEmail(token));
      && (reply.Verified? <==>
          && token != 0 && Hash(token) in st.tokens
          && var t := st.tokens[Hash(token)];
          t.purpose == EmailVerification && t.usedAt.None? && now < t.expiresAt && t.subject in st.users)
      && (reply.Verified? ==>
          var u := st.tokens[Hash(token)].subject;
          && u in after.users && reply.user == after.users[u] && after.users[u].verified
          && after.users[u] == (if st.users[u].verified then st.users[u]
                                else st.users[u].(verified := true, updatedAt := now))
          && after.users.Keys == st.users.Keys
          && (forall v :: v in st.users && v != u ==> after.users[v] == st.users[v])
          && Hash(token) in after.tokens && after.tokens[Hash(token)].usedAt == Some(now)
          && after.sessions == st.sessions && after.accounts == st.accounts && after.credentials == st.credentials)
      && (!reply.Verified? ==> reply == Failed(InvalidToken) && after.users == st.users)
  {
    hide SessionsOk, AccountsOk, CredentialsOk, OneActive;
  }

  /** New users start unverified, verifying one of them makes it verified, and nothing else
      changes that. */
  lemma VerifiedStep(cfg: Config, st: Store, now: int, op: Op, u: Id)
    requires WellFormed(st)
    ensures var after := Apply(cfg, st, now, op).0;
      && (u in st.users ==> u in after.users)
      && (u in after.users ==> (after.users[u].verified <==>
            u in st.users && (st.users[u].verified || Verifies(cfg, st, now, op, u))))
  {
    hide WellFormed, Apply;
    UserStep(cfg, st, now, op, u);
    if op.VerifyEmail? {
      VerifiedExactlyWhen(cfg, st, now, op.token);
    } else {
      OthersVerifyNobody(cfg, st, now, op, u);
    }
  }

  lemma OthersVerifyNobody(cfg: Config, st: Store, now: int, op: Op, u: Id)
    requires WellFormed(st) && !op.VerifyEmail?
    ensures var after := Apply(cfg, st, now, op).0;
      && (u in st.users ==> u in after.users && after.users[u] == st.users[u])
      && (u !in st.users && u in after.users ==> !after.users[u].verified)
  {
    hide SessionsOk, AccountsOk, CredentialsOk, OneActive, HasPassword, ActiveOf, Mark, Refused, Replaced;
    assert st.next !in st.users;
    match op
    case SignUp(_, _, _) =>
    case ChangePassword(_, _, _, _, _, _) =>
    case ResetPassword(_, _, _) =>
    case _ =>
  }

  /** Some step of the run verifies the email of the user. */
  ghost predicate VerifiedDuring(cfg: Config, st: Store, now: int, steps: seq<Step>, u: Id)
    decreases |steps|
  {
    steps != []
    && var later := now + steps[0].pause;
    || Verifies(cfg, st, later, steps[0].op, u)
    || VerifiedDuring(cfg, Apply(cfg, st, later, steps[0].op).0, later, steps[1..], u)
  }

  /** Over a run a user is verified at its end if and only if it was before or a step did it. */
  lemma {:induction false} VerifiedExactlyDuring(cfg: Config, st: Store, now: int, steps: seq<Step>, u: Id)
    requires WellFormed(st) && u in st.users
    ensures var end := Run(cfg, st, now, steps).0;
      u in end.users && (end.users[u].verified <==> st.users[u].verified || VerifiedDuring(cfg, st, now, steps, u))
    decreases |steps|
  {
    hide WellFormed, Evolves, Apply, Verifies;
    if steps != [] {
      var later := now + steps[0].pause;
      ApplyKeeps(cfg, st, later, steps[0].op);
      VerifiedStep(cfg, st, later, steps[0].op, u);
      VerifiedExactlyDuring(cfg, Apply(cfg, st, later, steps[0].op).0, later, steps[1..], u);
    }
  }

  // ---------------------------------------------------------------- the life of a session

  predicate Alive(st: Store, s: Session) {
    s.hash in st.sessions && st.sessions[s.hash] == s && s.revokedAt.None?
  }

  /** The revocation of the sessions of a user includes this one. */
  predicate Includes(user: Id, except: Id, broken: set<Call>, s: Session) {
    s.userId == user && s.id != except && MarkSession(s.hash) !in broken
  }

  /** The operation revokes the session. */
  ghost predicate Ends(cfg: Config, st: Store, now: int, op: Op, s: Session) {
    match op
    case SignOut(token) => token != 0 && Hash(token) == s.hash
    case RevokeSession(id) => id == s.id
    case RevokeUserSessions(user, except, broken) =>
      Apply(cfg, st, now, op).1 == Done && Includes(user, except, broken, s)
    case RevokeInStore(user, broken) => Apply(cfg, st, now, op).1 == Done && Includes(user, 0, broken, s)
    case ChangePassword(user, _, _, currentSession, keepOthers, broken) =>
      Apply(cfg, st, now, op).1 == Done && !keepOthers && Includes(user, currentSession, broken, s)
    case ResetPassword(token, _, broken) =>
      && Apply(cfg, st, now, op).1 == Done && Hash(token) in st.tokens
      && Includes(st.tokens[Hash(token)].subject, 0, broken, s)
    case _ => false
  }

  /** Revoked now if `ended`, and otherwise as before. */
  predicate LivesUnless(ended: bool, after: Store, s: Session, now: int) {
    s.hash in after.sessions && after.sessions[s.hash] == if ended then s.(revokedAt := Some(now)) else s
  }

  lemma RevokeUserEnds(st: Store, user: Id, except: Id, now: int, broken: set<Call>, s: Session)
    requires Alive(st, s) && RevokeUser(st, user, except, now, broken).Ok?
    ensures LivesUnless(Includes(user, except, broken, s), RevokeUser(st, user, except, now, broken).value, s, now)
  {
  }

  lemma NewSessionSpares(cfg: Config, st: Store, user: Id, now: int, s: Session)
    requires WellFormed(st) && Alive(st, s)
    ensures Alive(WithSession(st, NewSession(cfg, st, user, now).session), s)
  {
    hide UsersOk, AccountsOk, CredentialsOk, OneActive;
  }

  lemma SignUpSpares(cfg: Config, st: Store, address: string, password: string, now: int, broken: set<Call>, s: Session)
    requires WellFormed(st) && Alive(st, s)
    ensures Alive(SignedUp(cfg, st, address, password, now, broken).0, s)
  {
    hide UsersOk, AccountsOk, CredentialsOk, OneActive, HasEmail;
  }

  lemma SignInSpares(cfg: Config, st: Store, address: string, password: string, now: int, s: Session)
    requires WellFormed(st) && Alive(st, s)
    ensures Alive(SignedIn(cfg, st, address, password, now).0, s)
  {
    hide WellFormed, Alive, WithSession, NewSession, Authenticates, HasEmail;
    if SignedIn(cfg, st, address, password, now).1.Entered? {
      NewSessionSpares(cfg, st, st.users[ByEmail(st.users, cfg.normalize(address).value)].id, now, s);
    }
  }

  lemma ChangeEnds(cfg: Config, st: Store, now: int, op: Op, s: Session)
    requires Alive(st, s) && op.ChangePassword?
    ensures LivesUnless(Ends(cfg, st, now, op, s), Apply(cfg, st, now, op).0, s, now)
  {
    hide RevokeUser, HasPassword, Replaced;
    var rotated := Rotated(st, op.user, cfg.hash(op.password, st.next), now, op.broken);
    if Apply(cfg, st, now, op).1 == Done && !op.keepOthers {
      RevokeUserEnds(rotated.value, op.user, op.currentSession, now, op.broken, s);
    }
  }

  lemma ResetEnds(cfg: Config, st: Store, now: int, op: Op, s: Session)
    requires Alive(st, s) && op.ResetPassword? && s.id != 0
    ensures LivesUnless(Ends(cfg, st, now, op, s), Apply(cfg, st, now, op).0, s, now)
  {
    hide RevokeUser, HasPassword, Replaced;
    if Apply(cfg, st, now, op).1 == Done {
      var (consumed, user) := Consumed(st, PasswordReset, op.token, now, op.broken).value;
      var rotated := Rotated(consumed, user, cfg.hash(op.password, st.next), now, op.broken);
      RevokeUserEnds(rotated.value, user, 0, now, op.broken, s);
    }
  }

  /** An operation revokes an unexpired session exactly when it is one that ends it, and leaves
      it alone otherwise. */
  lemma SessionStep(cfg: Config, st: Store, now: int, op: Op, s: Session)
    requires WellFormed(st) && Alive(st, s) && now < s.expiresAt
    ensures LivesUnless(Ends(cfg, st, now, op, s), Apply(cfg, st, now, op).0, s, now)
  {
    hide UsersOk, AccountsOk, CredentialsOk, OneActive, SignedUp, SignedIn, PasswordChanged, PasswordWasReset,
         RevokeUser;
    match op
    case SignUp(address, password, broken) => SignUpSpares(cfg, st, address, password, now, broken, s);
    case SignIn(address, password) => SignInSpares(cfg, st, address, password, now, s);
    case CreateSession(user) => NewSessionSpares(cfg, st, user, now, s);
    case RevokeUserSessions(user, except, broken) =>
      if RevokeUser(st, user, except, now, broken).Ok? {
        RevokeUserEnds(st, user, except, now, broken, s);
      }
    case RevokeInStore(user, broken) =>
      if RevokeUser(st, user, 0, now, broken).Ok? {
        RevokeUserEnds(st, user, 0, now, broken, s);
      }
    case ChangePassword(_, _, _, _, _, _) => ChangeEnds(cfg, st, now, op, s);
    case ResetPassword(_, _, _) => ResetEnds(cfg, st, now, op, s);
    case _ =>
  }

  /** Some step of the run revokes the session. */
  ghost predicate EndedDuring(cfg: Config, st: Store, now: int, steps: seq<Step>, s: Session)
    decreases |steps|
  {
    steps != []
    && var later := now + steps[0].pause;
    || Ends(cfg, st, later, steps[0].op, s)
    || EndedDuring(cfg, Apply(cfg, st, later, steps[0].op).0, later, steps[1..], s)
  }

  /** At the end of any run a session that was alive is resolved, with its user, if and only if
      it has not expired and no step has revoked it. */
  lemma {:induction false} SessionLives(cfg: Config, st: Store, now: int, steps: seq<Step>, s: Session)
    requires WellFormed(st) && Alive(st, s) && 0 < s.hash.token && s.userId in st.users
    ensures var (end, t) := Run(cfg, st, now, steps);
      && s.userId in end.users
      && Resolve(end, s.hash.token, t)
        == if t < s.expiresAt && !EndedDuring(cfg, st, now, steps, s) then Some((s, end.users[s.userId])) else None
    decreases |steps|
  {
    hide WellFormed, Evolves, Apply, Ends;
    UserStays(cfg, st, now, steps, s.userId);
    RunsForward(cfg, st, now, steps);
    if steps == [] {
    } else {
      var later := now + steps[0].pause;
      var next := Apply(cfg, st, later, steps[0].op).0;
      RunsForward(cfg, next, later, steps[1..]);
      ApplyKeeps(cfg, st, later, steps[0].op);
      UserStep(cfg, st, later, steps[0].op, s.userId);
      if s.expiresAt <= later {
        LeavesOver(st, s, later);
        StaysOver(cfg, st, later, Step(0, steps[0].op), s.hash.token);
        OverForGood(cfg, next, later, steps[1..], s.hash.token);
      } else {
        SessionStep(cfg, st, later, steps[0].op, s);
        if Ends(cfg, st, later, steps[0].op, s) {
          LeavesOver(next, s.(revokedAt := Some(later)), later);
          OverForGood(cfg, next, later, steps[1..], s.hash.token);
        } else {
          SessionLives(cfg, next, later, steps[1..], s);
        }
      }
    }
  }

  lemma LeavesOver(st: Store, s: Session, now: int)
    requires WellFormed(st) && s.hash in st.sessions && st.sessions[s.hash] == s && !s.Valid(now)
    ensures Over(st, s.hash.token, now)
  {
    hide UsersOk, AccountsOk, CredentialsOk, OneActive;
  }

  lemma SignInOpens(cfg: Config, st: Store, address: string, password: string, now: int)
    requires WellFormed(st) && SignedIn(cfg, st, address, password, now).1.Entered?
    ensures var (after, reply) := SignedIn(cfg, st, address, password, now);
      && WellFormed(after) && reply.user.id in after.users && reply.session.Some?
      && var (s, token) := (reply.session.value.session, reply.session.value.token);
      Alive(after, s) && s.hash == Hash(token) && 0 < token
      && s.userId == reply.user.id && s.expiresAt == now + cfg.sessionTTL
  {
    hide SessionsOk, AccountsOk, CredentialsOk, OneActive, HasPassword, Evolves;
    SignInKeeps(cfg, st, address, password, now);
  }

  /** The token handed out by signing in resolves to its session and user throughout any run,
      until it expires or is revoked, and never after. */
  lemma IssuedTokenResolves(cfg: Config, st: Store, address: string, password: string, now: int, steps: seq<Step>)
    requires WellFormed(st) && SignedIn(cfg, st, address, password, now).1.Entered?
    ensures var (after, reply) := SignedIn(cfg, st, address, password, now);
      var (end, t) := Run(cfg, after, now, steps);
      && reply.session.Some? && reply.user.id in end.users
      && var s := reply.session.value.session;
      Resolve(end, reply.session.value.token, t)
        == if t < now + cfg.sessionTTL && !EndedDuring(cfg, after, now, steps, s) then
             Some((s, end.users[reply.user.id]))
           else None
  {
    hide SignedIn, WellFormed, Run, EndedDuring, Alive, Resolve;
    var (after, reply) := SignedIn(cfg, st, address, password, now);
    SignInOpens(cfg, st, address, password, now);
    SessionLives(cfg, after, now, steps, reply.session.value.session);
  }

  // ---------------------------------------------------------------- the life of a password

  /** The operation replaces the password of the user. */
  ghost predicate Rotates(cfg: Config, st: Store, now: int, op: Op, user: Id) {
    && (op.ChangePassword? || op.ResetPassword?) && Apply(cfg, st, now, op).1 == Done
    && (op.ChangePassword? ==> op.user == user)
    && (op.ResetPassword? ==> Hash(op.token) in st.tokens && st.tokens[Hash(op.token)].subject == user)
  }

  /** The user has this secret. */
  ghost predicate HasSecret(st: Store, user: Id, secret: string) {
    HasPassword(st, user) && st.credentials[PasswordOf(st, user)].secret == secret
  }

  lemma OnlyPassword(st: Store, user: Id, c: Id)
    requires WellFormed(st) && user in st.accounts && c in st.credentials
    requires ActiveFor(st.credentials[c], st.accounts[user])
    ensures HasSecret(st, user, st.credentials[c].secret)
  {
    hide UsersOk, SessionsOk, AccountsOk, CredentialsOk;
    OnlyActive(st.accounts, st.credentials, st.accounts[user], c);
  }

  lemma EnrollSpares(cfg: Config, st: Store, email: string, password: string, now: int, user: Id, secret: string)
    requires WellFormed(st) && HasSecret(st, user, secret) && !HasEmail(st.users, email)
    ensures HasSecret(Enrolled(cfg, st, email, password, now), user, secret)
  {
    hide UsersOk, SessionsOk, OneActive, HasActive, HasEmail, Evolves;
    var after := Enrolled(cfg, st, email, password, now);
    EnrollKeeps(cfg, st, email, password, now);
    OnlyPassword(after, user, PasswordOf(st, user));
  }

  lemma SignUpSparesPassword(cfg: Config, st: Store, address: string, password: string, now: int, broken: set<Call>,
                             user: Id, secret: string)
    requires WellFormed(st) && HasSecret(st, user, secret)
    ensures HasSecret(SignedUp(cfg, st, address, password, now, broken).0, user, secret)
  {
    hide WellFormed, HasSecret, Enrolled, HasEmail;
    var after := SignedUp(cfg, st, address, password, now, broken).0;
    if SignedUp(cfg, st, address, password, now, broken).1.Entered? {
      var email := cfg.normalize(address).value;
      EnrollSpares(cfg, st, email, password, now, user, secret);
      SameTables(Enrolled(cfg, st, email, password, now), after, user, secret);
    }
  }

  lemma RotationSpares(st: Store, other: Id, replacement: string, now: int, broken: set<Call>, user: Id, secret: string)
    requires WellFormed(st) && HasSecret(st, user, secret) && other != user
    requires Rotated(st, other, replacement, now, broken).Ok?
    ensures HasSecret(Rotated(st, other, replacement, now, broken).value, user, secret)
  {
    var after := Rotated(st, other, replacement, now, broken).value;
    RotateKeeps(st, other, replacement, now, broken);
    var c := PasswordOf(st, user);
    assert c != PasswordOf(st, other) && c != st.next;
    hide UsersOk, SessionsOk, OneActive, HasActive, Evolves, HasSecret;
    OnlyPassword(after, user, c);
  }

  lemma SameTables(st: Store, after: Store, user: Id, secret: string)
    requires HasSecret(st, user, secret) && after.accounts == st.accounts && after.credentials == st.credentials
    ensures HasSecret(after, user, secret)
  {
  }

  lemma ChangeSparesPassword(cfg: Config, st: Store, now: int, op: Op, user: Id, secret: string)
    requires WellFormed(st) && HasSecret(st, user, secret) && op.ChangePassword? && !Rotates(cfg, st, now, op, user)
    ensures HasSecret(Apply(cfg, st, now, op).0, user, secret)
  {
    hide WellFormed, HasSecret, Rotated, Authenticates, Mark, ActiveOf;
    if Apply(cfg, st, now, op).1 == Done {
      RotationSpares(st, op.user, cfg.hash(op.password, st.next), now, op.broken, user, secret);
      SameTables(Rotated(st, op.user, cfg.hash(op.password, st.next), now, op.broken).value,
                 Apply(cfg, st, now, op).0, user, secret);
    }
  }

  lemma ResetSparesPassword(cfg: Config, st: Store, now: int, op: Op, user: Id, secret: string)
    requires WellFormed(st) && HasSecret(st, user, secret) && op.ResetPassword? && !Rotates(cfg, st, now, op, user)
    ensures HasSecret(Apply(cfg, st, now, op).0, user, secret)
  {
    hide WellFormed, HasSecret, Rotated, Mark, ActiveOf, Evolves;
    if Apply(cfg, st, now, op).1 == Done {
      var (consumed, other) := Consumed(st, PasswordReset, op.token, now, op.broken).value;
      ConsumedKeeps(st, PasswordReset, op.token, now, op.broken);
      SameTables(st, consumed, user, secret);
      RotationSpares(consumed, other, cfg.hash(op.password, st.next), now, op.broken, user, secret);
      SameTables(Rotated(consumed, other, cfg.hash(op.password, st.next), now, op.broken).value,
                 Apply(cfg, st, now, op).0, user, secret);
    }
  }

  /** An operation that does not replace the password of a user leaves it alone. */
  lemma PasswordStep(cfg: Config, st: Store, now: int, op: Op, user: Id, secret: string)
    requires WellFormed(st) && HasSecret(st, user, secret) && !Rotates(cfg, st, now, op, user)
    ensures HasSecret(Apply(cfg, st, now, op).0, user, secret)
  {
    hide WellFormed, HasSecret, Rotates, SignedUp, PasswordChanged, PasswordWasReset, Authenticates;
    match op
    case SignUp(address, password, broken) =>
      SignUpSparesPassword(cfg, st, address, password, now, broken, user, secret);
    case ChangePassword(_, _, _, _, _, _) => ChangeSparesPassword(cfg, st, now, op, user, secret);
    case ResetPassword(_, _, _) => ResetSparesPassword(cfg, st, now, op, user, secret);
    case _ => SameTables(st, Apply(cfg, st, now, op).0, user, secret);
  }

  /** Some step of the run replaces the password of the user. */
  ghost predicate RotatedDuring(cfg: Config, st: Store, now: int, steps: seq<Step>, user: Id)
    decreases |steps|
  {
    steps != []
    && var later := now + steps[0].pause;
    || Rotates(cfg, st, later, steps[0].op, user)
    || RotatedDuring(cfg, Apply(cfg, st, later, steps[0].op).0, later, steps[1..], user)
  }

  lemma {:induction false} SecretStays(cfg: Config, st: Store, now: int, steps: seq<Step>, user: Id, secret: string)
    requires WellFormed(st) && HasSecret(st, user, secret) && !RotatedDuring(cfg, st, now, steps, user)
    ensures HasSecret(Run(cfg, st, now, steps).0, user, secret)
    decreases |steps|
  {
    hide WellFormed, Evolves, Apply, HasSecret, Rotates;
    if steps != [] {
      var later := now + steps[0].pause;
      ApplyKeeps(cfg, st, later, steps[0].op);
      PasswordStep(cfg, st, later, steps[0].op, user, secret);
      SecretStays(cfg, Apply(cfg, st, later, steps[0].op).0, later, steps[1..], user, secret);
    }
  }

  /** Verification accepts what hashing made of the same password. */
  ghost predicate Sound(cfg: Config) {
    forall p: string, salt: Id :: cfg.verify(cfg.hash(p, salt), p)
  }

  lemma RotatedHas(st: Store, user: Id, secret: string, now: int, broken: set<Call>)
    requires WellFormed(st) && Rotated(st, user, secret, now, broken).Ok?
    ensures HasSecret(Rotated(st, user, secret, now, broken).value, user, secret)
  {
    hide UsersOk, SessionsOk, OneActive, HasActive, Evolves;
    RotatedReplaces(st, user, secret, now, broken);
  }

  lemma RotatesTo(cfg: Config, st: Store, now: int, op: Op, user: Id)
    requires WellFormed(st) && Rotates(cfg, st, now, op, user)
    ensures HasSecret(Apply(cfg, st, now, op).0, user, cfg.hash(op.password, st.next))
  {
    hide WellFormed, HasSecret, Rotated, Authenticates, Mark, ActiveOf, Evolves;
    var secret := cfg.hash(op.password, st.next);
    if op.ChangePassword? {
      RotatedHas(st, user, secret, now, op.broken);
      SameTables(Rotated(st, user, secret, now, op.broken).value, Apply(cfg, st, now, op).0, user, secret);
    } else {
      var (consumed, other) := Consumed(st, PasswordReset, op.token, now, op.broken).value;
      ConsumedKeeps(st, PasswordReset, op.token, now, op.broken);
      RotatedHas(consumed, user, secret, now, op.broken);
      SameTables(Rotated(consumed, user, secret, now, op.broken).value, Apply(cfg, st, now, op).0, user, secret);
    }
  }

  lemma EnrolledHas(cfg: Config, st: Store, email: string, password: string, now: int)
    requires WellFormed(st) && !HasEmail(st.users, email)
    ensures HasSecret(Enrolled(cfg, st, email, password, now), st.next, cfg.hash(password, st.next + 2))
  {
    hide UsersOk, SessionsOk, OneActive, HasActive, HasEmail, Evolves;
    EnrollKeeps(cfg, st, email, password, now);
    OnlyPassword(Enrolled(cfg, st, email, password, now), st.next, st.next + 2);
  }

  lemma SignUpSets(cfg: Config, st: Store, address: string, password: string, now: int, broken: set<Call>)
    requires WellFormed(st) && SignedUp(cfg, st, address, password, now, broken).1.Entered?
    ensures var (after, reply) := SignedUp(cfg, st, address, password, now, broken);
      && WellFormed(after) && reply.user.id in after.users
      && cfg.normalize(address) == Some(after.users[reply.user.id].email)
      && HasSecret(after, reply.user.id, cfg.hash(password, st.next + 2))
  {
    hide WellFormed, HasSecret, HasEmail, Evolves;
    var email := cfg.normalize(address).value;
    SignUpKeeps(cfg, st, email, password, now, broken);
    EnrolledHas(cfg, st, email, password, now);
    SameTables(Enrolled(cfg, st, email, password, now), SignedUp(cfg, st, address, password, now, broken).0,
               st.next, cfg.hash(password, st.next + 2));
  }

  /** What signing in with the address of a user answers while the user has this secret. */
  ghost predicate SignInDecided(cfg: Config, st: Store, address: string, attempt: string, now: int, u: Id,
                                secret: string)
  {
    && u in st.users
    && SignedIn(cfg, st, address, attempt, now).1
      == if |attempt| > cfg.maxLength || !cfg.verify(secret, attempt) then Failed(InvalidCredentials)
         else if cfg.verificationRequired && !st.users[u].verified then Failed(EmailNotVerified)
         else Entered(st.users[u], Some(NewSession(cfg, st, u, now)))
  }

  lemma SecretDecides(cfg: Config, st: Store, address: string, attempt: string, now: int, u: Id, secret: string)
    requires WellFormed(st) && HasSecret(st, u, secret)
    requires u in st.users && cfg.normalize(address) == Some(st.users[u].email)
    ensures SignInDecided(cfg, st, address, attempt, now, u, secret)
    ensures Authenticates(cfg, st, u, attempt) <==> cfg.verify(secret, attempt)
  {
    hide SessionsOk, AccountsOk, CredentialsOk, OneActive, HasPassword, PasswordOf, NewSession, WithSession;
    assert HasEmail(st.users, st.users[u].email);
  }

  /** Whoever has signed up signs in with the same address and password, as the same user, after
      any run that does not replace the password, once the email is verified if it must be; any
      other attempt succeeds exactly if verification cannot tell it from that password. */
  lemma SignUpThenSignIn(cfg: Config, st: Store, address: string, password: string, now: int, broken: set<Call>,
                         steps: seq<Step>, attempt: string)
    requires WellFormed(st) && SignedUp(cfg, st, address, password, now, broken).1.Entered?
    requires var (after, reply) := SignedUp(cfg, st, address, password, now, broken);
      !RotatedDuring(cfg, after, now, steps, reply.user.id)
    ensures var (after, reply) := SignedUp(cfg, st, address, password, now, broken);
      var (end, t) := Run(cfg, after, now, steps);
      SignInDecided(cfg, end, address, attempt, t, reply.user.id, cfg.hash(password, st.next + 2))
    ensures |password| <= cfg.maxLength && (Sound(cfg) ==> cfg.verify(cfg.hash(password, st.next + 2), password))
  {
    assert |password| <= cfg.maxLength;
    hide WellFormed, HasSecret, SignedUp, Run, RotatedDuring, SignInDecided;
    var (after, reply) := SignedUp(cfg, st, address, password, now, broken);
    var (u, secret) := (reply.user.id, cfg.hash(password, st.next + 2));
    SignUpSets(cfg, st, address, password, now, broken);
    var (end, t) := Run(cfg, after, now, steps);
    RunKeepsWellFormed(cfg, after, now, steps);
    UserStays(cfg, after, now, steps, u);
    SecretStays(cfg, after, now, steps, u, secret);
    SecretDecides(cfg, end, address, attempt, t, u, secret);
  }

  /** With the right password: after a sign-up, and any run that does not replace the password,
      it enters if and only if verification is not required or the run has verified the email. */
  lemma EntersOnceVerified(cfg: Config, st: Store, address: string, password: string, now: int, broken: set<Call>,
                           steps: seq<Step>)
    requires WellFormed(st) && Sound(cfg) && SignedUp(cfg, st, address, password, now, broken).1.Entered?
    requires var (after, reply) := SignedUp(cfg, st, address, password, now, broken);
      !RotatedDuring(cfg, after, now, steps, reply.user.id)
    ensures var (after, reply) := SignedUp(cfg, st, address, password, now, broken);
      var (end, t) := Run(cfg, after, now, steps);
      var second := SignedIn(cfg, end, address, password, t).1;
      && (second.Entered? <==> !cfg.verificationRequired || VerifiedDuring(cfg, after, now, steps, reply.user.id))
      && (second.Entered? ==> second.user.id == reply.user.id && second.session.Some?)
      && (!second.Entered? ==> second == Failed(EmailNotVerified))
  {
    hide WellFormed, HasSecret, Run, RotatedDuring, VerifiedDuring, Sound;
    var (after, reply) := SignedUp(cfg, st, address, password, now, broken);
    SignUpSets(cfg, st, address, password, now, broken);
    SignUpThenSignIn(cfg, st, address, password, now, broken, steps, password);
    NewUserIsUnverified(cfg, st, address, password, now, broken);
    VerifiedExactlyDuring(cfg, after, now, steps, reply.user.id);
    UserStays(cfg, after, now, steps, reply.user.id);
    hide SignedUp, SignedIn;
  }

  lemma NewUserIsUnverified(cfg: Config, st: Store, address: string, password: string, now: int, broken: set<Call>)
    requires WellFormed(st) && SignedUp(cfg, st, address, password, now, broken).1.Entered?
    ensures var (after, reply) := SignedUp(cfg, st, address, password, now, broken);
      && reply.user.id in after.users && after.users[reply.user.id] == reply.user && !reply.user.verified
      && reply.user.id !in st.users
  {
    hide SessionsOk, AccountsOk, CredentialsOk, OneActive;
  }

  /** After a change or a reset, and any run that does not replace the password again, the new
      password decides who signs in: it does, any other exactly if verification cannot tell it
      from the new one. */
  lemma NewPasswordDecides(cfg: Config, st: Store, now: int, op: Op, user: Id, steps: seq<Step>, address: string,
                           attempt: string)
    requires WellFormed(st) && Rotates(cfg, st, now, op, user)
    requires user in st.users && cfg.normalize(address) == Some(st.users[user].email)
    requires !RotatedDuring(cfg, Apply(cfg, st, now, op).0, now, steps, user)
    ensures var (end, t) := Run(cfg, Apply(cfg, st, now, op).0, now, steps);
      var secret := cfg.hash(op.password, st.next);
      && SignInDecided(cfg, end, address, attempt, t, user, secret)
      && (Authenticates(cfg, end, user, attempt) <==> cfg.verify(secret, attempt))
    ensures |op.password| <= cfg.maxLength && (Sound(cfg) ==> cfg.verify(cfg.hash(op.password, st.next), op.password))
  {
    AllowedPassword(cfg, st, now, op, user);
    hide WellFormed, HasSecret, Apply, Run, Rotates, RotatedDuring, SignInDecided, Authenticates, Evolves;
    var after := Apply(cfg, st, now, op).0;
    var (end, t) := Run(cfg, after, now, steps);
    var secret := cfg.hash(op.password, st.next);
    RotatesTo(cfg, st, now, op, user);
    ApplyKeeps(cfg, st, now, op);
    RunKeepsWellFormed(cfg, after, now, steps);
    UserStep(cfg, st, now, op, user);
    UserStays(cfg, after, now, steps, user);
    SecretStays(cfg, after, now, steps, user, secret);
    SecretDecides(cfg, end, address, attempt, t, user, secret);
  }

  lemma AllowedPassword(cfg: Config, st: Store, now: int, op: Op, user: Id)
    requires Rotates(cfg, st, now, op, user)
    ensures op.ChangePassword? || op.ResetPassword?
    ensures |op.password| <= cfg.maxLength
  {
    hide Rotated, RevokeUser, HasPassword;
  }
}
