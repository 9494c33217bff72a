/** Whole runs of the core operations, and when a password operation takes all of its effects
    or none. */
module CoreRuns {
  import opened Wrappers
  import opened Identifiers
  import opened Core
  import opened CoreLaws

  /** An operation, some time after the previous one. */
  datatype Step = Step(pause: nat, op: Op)

  ghost function Run(cfg: Config, st: Store, now: int, steps: seq<Step>): (Store, int)
    decreases |steps|
  {
    if steps == [] then (st, now)
    else
      var later := now + steps[0].pause;
      Run(cfg, Apply(cfg, st, later, steps[0].op).0, later, steps[1..])
  }

  /** The replies along a run of the engine without a cache. */
  ghost function Replies(cfg: Config, st: Store, now: int, steps: seq<Step>): seq<Reply>
    decreases |steps|
  {
    if steps == [] then []
    else
      var later := now + steps[0].pause;
      var (next, reply) := Apply(cfg, st, later, steps[0].op);
      [reply] + Replies(cfg, next, later, steps[1..])
  }

  lemma {:induction false} RunOneMore(cfg: Config, st: Store, now: int, steps: seq<Step>, step: Step)
    ensures var (mid, t) := Run(cfg, st, now, steps);
      var (next, reply) := Apply(cfg, mid, t + step.pause, step.op);
      && Run(cfg, st, now, steps + [step]) == (next, t + step.pause)
      && Replies(cfg, st, now, steps + [step]) == Replies(cfg, st, now, steps) + [reply]
    decreases |steps|
  {
    hide Apply;
    var all := steps + [step];
    if steps == [] {
      assert all[1..] == [];
    } else {
      assert all[1..] == steps[1..] + [step];
      var later := now + steps[0].pause;
      RunOneMore(cfg, Apply(cfg, st, later, steps[0].op).0, later, steps[1..], step);
    }
  }

  /** The same step seen from the beginning of the run. */
  lemma OneMoreStep(cfg: Config, st: Store, now: int, steps: seq<Step>, i: nat, mid: Store, t: int)
    requires i < |steps| && Run(cfg, st, now, steps[..i]) == (mid, t)
    ensures Run(cfg, st, now, steps[..i + 1])
      == (Apply(cfg, mid, t + steps[i].pause, steps[i].op).0, t + steps[i].pause)
    ensures Replies(cfg, st, now, steps[..i + 1])
      == Replies(cfg, st, now, steps[..i]) + [Apply(cfg, mid, t + steps[i].pause, steps[i].op).1]
  {
    hide Apply;
    RunOneMore(cfg, st, now, steps[..i], steps[i]);
    assert steps[..i + 1] == steps[..i] + [steps[i]];
  }

  const EMPTY: Store := Store(map[], map[], map[], map[], map[], 1)

  /** In every reachable state each password account has exactly one active credential. */
  lemma {:induction false} RunKeepsWellFormed(cfg: Config, st: Store, now: int, steps: seq<Step>)
    requires WellFormed(st)
    ensures WellFormed(Run(cfg, st, now, steps).0)
    decreases |steps|
  {
    hide WellFormed, Evolves, Apply;
    if steps != [] {
      var later := now + steps[0].pause;
      ApplyKeeps(cfg, st, later, steps[0].op);
      RunKeepsWellFormed(cfg, Apply(cfg, st, later, steps[0].op).0, later, steps[1..]);
    }
  }

  lemma EmptyIsWellFormed()
    ensures WellFormed(EMPTY)
  {
  }

  /** A revoked credential never becomes active again, and never changes at all. */
  lemma {:induction false} RevokedNeverReactivates(cfg: Config, st: Store, now: int, steps: seq<Step>, c: Id)
    requires WellFormed(st) && c in st.credentials && st.credentials[c].revokedAt.Some?
    ensures c in Run(cfg, st, now, steps).0.credentials
    ensures Run(cfg, st, now, steps).0.credentials[c] == st.credentials[c]
    decreases |steps|
  {
    hide WellFormed, SessionsEvolve, Apply;
    if steps != [] {
      var later := now + steps[0].pause;
      ApplyKeeps(cfg, st, later, steps[0].op);
      RevokedNeverReactivates(cfg, Apply(cfg, st, later, steps[0].op).0, later, steps[1..], c);
    }
  }

  /** The token names no session that is or can become valid. */
  predicate Over(st: Store, token: Id, now: int) {
    token < st.next && (Hash(token) in st.sessions ==> !st.sessions[Hash(token)].Valid(now))
  }

  lemma StaysOver(cfg: Config, st: Store, now: int, step: Step, token: Id)
    requires WellFormed(st) && Over(st, token, now)
    ensures Over(Apply(cfg, st, now + step.pause, step.op).0, token, now + step.pause)
  {
    hide WellFormed, Apply;
    ApplyKeeps(cfg, st, now + step.pause, step.op);
  }

  /** A session once revoked, expired or deleted is not resolved at any later time of any run. */
  lemma {:induction false} OverForGood(cfg: Config, st: Store, now: int, steps: seq<Step>, token: Id)
    requires WellFormed(st) && Over(st, token, now)
    ensures Resolve(Run(cfg, st, now, steps).0, token, Run(cfg, st, now, steps).1) == None
    decreases |steps|
  {
    hide WellFormed, Evolves, Apply;
    if steps != [] {
      var later := now + steps[0].pause;
      ApplyKeeps(cfg, st, later, steps[0].op);
      StaysOver(cfg, st, now, steps[0], token);
      OverForGood(cfg, Apply(cfg, st, later, steps[0].op).0, later, steps[1..], token);
    }
  }

  /** Signing out ends the session for good, whatever happens next. */
  lemma SignOutIsFinal(cfg: Config, st: Store, now: int, token: Id, steps: seq<Step>)
    requires WellFormed(st) && token < st.next
    ensures var after := SignedOut(st, token, now).0;
      Resolve(Run(cfg, after, now, steps).0, token, Run(cfg, after, now, steps).1) == None
  {
    var after := SignedOut(st, token, now).0;
    ApplyKeeps(cfg, st, now, SignOut(token));
    hide WellFormed, Evolves;
    if token != 0 {
      OverForGood(cfg, after, now, steps, token);
    }
  }

  // ---------------------------------------------------------------- all or nothing

  /** The password of a user was replaced: the credential active before is revoked at this
      moment, a new one with this secret is the active one, and the others are untouched. */
  ghost predicate PasswordReplaced(st: Store, after: Store, user: Id, secret: string, now: int) {
    && HasPassword(st, user) && HasPassword(after, user)
    && after.credentials.Keys == st.credentials.Keys + {PasswordOf(after, user)}
    && PasswordOf(after, user) !in st.credentials
    && after.credentials[PasswordOf(after, user)].secret == secret
    && (forall c :: c in st.credentials && c != PasswordOf(st, user) ==> after.credentials[c] == st.credentials[c])
    && after.credentials[PasswordOf(st, user)] == st.credentials[PasswordOf(st, user)].(revokedAt := Some(now))
  }

  lemma OnlyActive(accounts: map<Id, Id>, credentials: map<Id, Credential>, a: Id, c: Id)
    requires OneActive(accounts, credentials) && c in credentials && ActiveFor(credentials[c], a)
    ensures HasActive(credentials, a) && ActiveIn(credentials, a) == c
  {
  }

  lemma RotatedReplaces(st: Store, user: Id, secret: string, now: int, broken: set<Call>)
    requires WellFormed(st) && Rotated(st, user, secret, now, broken).Ok?
    ensures PasswordReplaced(st, Rotated(st, user, secret, now, broken).value, user, secret, now)
  {
    hide SessionsOk, UsersOk, Evolves, OneActive, HasActive;
    RotateKeeps(st, user, secret, now, broken);
    var after := Rotated(st, user, secret, now, broken).value;
    OnlyActive(after.accounts, after.credentials, after.accounts[user], st.next);
  }

  /** The sessions a revocation leaves active are exactly those whose update failed unnoticed. */
  lemma LeftActive(st: Store, user: Id, except: Id, now: int, broken: set<Call>)
    requires RevokeUser(st, user, except, now, broken).Ok?
    ensures ActiveOf(RevokeUser(st, user, except, now, broken).value.sessions, user, except)
      == Refused(ActiveOf(st.sessions, user, except), broken)
    ensures except != 0 ==> Refused(ActiveOf(st.sessions, user, except), broken) == {}
    ensures Refused(ActiveOf(st.sessions, user, except), broken) == {} <==>
      forall h :: h in ActiveOf(st.sessions, user, except) ==> MarkSession(h) !in broken
  {
    var keys := ActiveOf(st.sessions, user, except);
    forall h | h in keys ensures MarkSession(h) in broken <==> h in Refused(keys, broken) {
    }
  }

  /** A password reset that fails leaves the Store as it was. One that succeeds has used the
      token and replaced the password, and leaves active exactly the sessions whose revocation
      failed: it is all or nothing if and only if no such call fails. */
  lemma ResetAllOrNothing(cfg: Config, st: Store, token: Id, password: string, now: int, broken: set<Call>)
    requires WellFormed(st)
    ensures var (after, reply) := PasswordWasReset(cfg, st, token, password, now, broken);
      && (reply != Done ==> reply.Failed? && after == st)
      && (reply == Done ==>
        && Hash(token) in st.tokens && st.tokens[Hash(token)].purpose == PasswordReset
        && st.tokens[Hash(token)].usedAt.None? && now < st.tokens[Hash(token)].expiresAt
        && after.tokens == st.tokens[Hash(token) := st.tokens[Hash(token)].(usedAt := Some(now))]
        && var user := st.tokens[Hash(token)].subject;
        && PasswordReplaced(st, after, user, cfg.hash(password, st.next), now)
        && ActiveOf(after.sessions, user, 0) == Refused(ActiveOf(st.sessions, user, 0), broken)
        && (ActiveOf(after.sessions, user, 0) == {} <==>
            forall h :: h in ActiveOf(st.sessions, user, 0) ==> MarkSession(h) !in broken))
  {
    var (after, reply) := PasswordWasReset(cfg, st, token, password, now, broken);
    if reply == Done {
      var (consumed, user) := Consumed(st, PasswordReset, token, now, broken).value;
      ConsumedKeeps(st, PasswordReset, token, now, broken);
      RotatedReplaces(consumed, user, cfg.hash(password, st.next), now, broken);
      var rotated := Rotated(consumed, user, cfg.hash(password, st.next), now, broken).value;
      LeftActive(rotated, user, 0, now, broken);
    }
  }

  /** A password change that spares a session is all or nothing; one that does not spare any
      can leave active exactly the sessions whose revocation failed. */
  lemma ChangeAllOrNothing(cfg: Config, st: Store, user: Id, current: string, password: string,
                           currentSession: Id, keepOthers: bool, now: int, broken: set<Call>)
    requires WellFormed(st)
    ensures var (after, reply) :=
        PasswordChanged(cfg, st, user, current, password, currentSession, keepOthers, now, broken);
      && (reply != Done ==> reply.Failed? && after == st)
      && (reply == Done ==>
        && Authenticates(cfg, st, user, current)
        && PasswordReplaced(st, after, user, cfg.hash(password, st.next), now)
        && (keepOthers ==> after.sessions == st.sessions)
        && (!keepOthers ==>
            ActiveOf(after.sessions, user, currentSession)
              == Refused(ActiveOf(st.sessions, user, currentSession), broken))
        && (!keepOthers && currentSession != 0 ==> ActiveOf(after.sessions, user, currentSession) == {}))
  {
    var (after, reply) := PasswordChanged(cfg, st, user, current, password, currentSession, keepOthers, now, broken);
    if reply == Done {
      RotatedReplaces(st, user, cfg.hash(password, st.next), now, broken);
      var rotated := Rotated(st, user, cfg.hash(password, st.next), now, broken).value;
      if !keepOthers {
        LeftActive(rotated, user, currentSession, now, broken);
      }
    }
  }

  lemma FirstUser(cfg: Config, address: string, password: string) returns (st: Store)
    requires cfg.normalize(address).Some? && cfg.Allows(password)
    ensures st == Apply(cfg, EMPTY, 0, SignUp(address, password, {})).0
    ensures 3 < st.next && 1 in st.users && HasPassword(st, 1)
  {
    st := Apply(cfg, EMPTY, 0, SignUp(address, password, {})).0;
    assert !HasEmail(EMPTY.users, cfg.normalize(address).value);
    assert ActiveFor(st.credentials[3], st.accounts[1]);
  }

  /** The moment of a reset: a session and a reset token of a user, just made. */
  lemma LeavesASession(cfg: Config, st: Store, password: string)
    requires cfg.Allows(password) && cfg.sessionTTL > 0 && 0 < st.next && 1 in st.users && HasPassword(st, 1)
    ensures var begun := Apply(cfg, st, 0, CreateSession(1)).0;
      var sent := Apply(cfg, begun, 0, IssueToken(PasswordReset, 1, 1)).0;
      var (after, reply) := PasswordWasReset(cfg, sent, st.next + 3, password, 0, {MarkSession(Hash(st.next + 1))});
      reply == Done && Resolve(after, st.next + 1, 0).Some?
  {
    hide HasPassword, PasswordOf, Replaced;
    var begun := Apply(cfg, st, 0, CreateSession(1)).0;
    var sent := Apply(cfg, begun, 0, IssueToken(PasswordReset, 1, 1)).0;
    var broken := {MarkSession(Hash(st.next + 1))};
    var consumed := Consumed(sent, PasswordReset, st.next + 3, 0, broken).value.0;
    SamePassword(st, consumed, 1);
  }

  lemma SamePassword(st: Store, after: Store, user: Id)
    requires HasPassword(st, user) && after.accounts == st.accounts && after.credentials == st.credentials
    ensures HasPassword(after, user)
  {
  }

  /** Sign up, open a session, ask for a reset token and use it while the update of that session
      fails; and the token of the session. */
  ghost function Leaving(cfg: Config, address: string, password: string): (seq<Step>, Id) {
    var next := Apply(cfg, EMPTY, 0, SignUp(address, password, {})).0.next;
    ([Step(0, SignUp(address, password, {})), Step(0, CreateSession(1)), Step(0, IssueToken(PasswordReset, 1, 1))]
     + [Step(0, ResetPassword(next + 3, password, {MarkSession(Hash(next + 1))}))],
     next + 1)
  }

  /** For every configuration that lets somebody sign up, such a failure is reachable from the
      empty Store: the reset succeeds and the session still resolves. */
  lemma ResetCanLeaveASession(cfg: Config, address: string, password: string)
    requires cfg.normalize(address).Some? && cfg.Allows(password) && cfg.sessionTTL > 0
    ensures var (steps, token) := Leaving(cfg, address, password);
      && |steps| == 4 && steps[3].op.ResetPassword? && |Replies(cfg, EMPTY, 0, steps)| == 4
      && Replies(cfg, EMPTY, 0, steps)[3] == Done
      && Resolve(Run(cfg, EMPTY, 0, steps).0, token, Run(cfg, EMPTY, 0, steps).1).Some?
  {
    var st := FirstUser(cfg, address, password);
    LeavesASession(cfg, st, password);
    var (steps, token) := Leaving(cfg, address, password);
    var (begin, reset) := (steps[..3], steps[3]);
    assert steps == begin + [reset];
    hide Apply, Run, Replies, Resolve;
    ThreeSteps(cfg, EMPTY, 0, begin);
    RunOneMore(cfg, EMPTY, 0, begin, reset);
    ReplyCount(cfg, EMPTY, 0, begin);
    ResetApplies(cfg, Run(cfg, EMPTY, 0, begin).0, 0, reset.op);
  }

  lemma {:induction false} ReplyCount(cfg: Config, st: Store, now: int, steps: seq<Step>)
    ensures |Replies(cfg, st, now, steps)| == |steps|
    decreases |steps|
  {
    hide Apply;
    if steps != [] {
      var later := now + steps[0].pause;
      ReplyCount(cfg, Apply(cfg, st, later, steps[0].op).0, later, steps[1..]);
    }
  }

  lemma ResetApplies(cfg: Config, st: Store, now: int, op: Op)
    requires op.ResetPassword?
    ensures Apply(cfg, st, now, op) == PasswordWasReset(cfg, st, op.token, op.password, now, op.broken)
  {
  }

  lemma ThreeSteps(cfg: Config, st: Store, now: int, steps: seq<Step>)
    requires |steps| == 3 && forall i :: 0 <= i < 3 ==> steps[i].pause == 0
    ensures var one := Apply(cfg, st, now, steps[0].op).0;
      var two := Apply(cfg, one, now, steps[1].op).0;
      Run(cfg, st, now, steps) == (Apply(cfg, two, now, steps[2].op).0, now)
  {
    hide Apply;
    var one := Apply(cfg, st, now, steps[0].op).0;
    var two := Apply(cfg, one, now, steps[1].op).0;
    assert steps[1..][0] == steps[1] && steps[1..][1..] == [steps[2]] && [steps[2]][1..] == [];
    assert Run(cfg, st, now, steps) == Run(cfg, one, now, steps[1..]);
    assert Run(cfg, one, now, steps[1..]) == Run(cfg, two, now, [steps[2]]);
  }
}
