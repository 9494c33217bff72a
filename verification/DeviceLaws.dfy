/** The grant machine, its sessions and its pacing, over every run. */
module DeviceLaws {
  import opened Wrappers
  import opened Identifiers
  import opened DeviceGrant

  // ---------------------------------------------------------------- the invariant

  predicate KeysOk(st: State) {
    && (forall h :: h in st.grants ==> h.token < st.next)
    && (forall g, h :: g in st.grants && h in st.grants && st.grants[g].userCode == st.grants[h].userCode ==> g == h)
    && (forall i :: 0 <= i < |st.log| ==> st.log[i].device in st.grants)
  }

  /** Pacing of one grant: with a slow-down increment that is not negative, n recorded pending
      answers took at least n - 1 initial intervals. */
  predicate Paced(cfg: Config, log: seq<Event>, h: Hash, g: Grant, now: int) {
    var n := Count(log, h, ToldPending);
    && g.interval == InitialInterval(cfg) + Seconds(cfg.slowDownIncrement) * Count(log, h, ToldSlowDown)
    && g.expiresAt == g.createdAt + cfg.expiresIn && g.createdAt <= now
    && (n > 0 ==> g.lastPolledAt.Some? && g.lastPolledAt.value <= now && g.lastPolledAt.value < g.expiresAt)
    && (n > 0 && Seconds(cfg.slowDownIncrement) >= 0 ==>
      g.createdAt + (n - 1) * (InitialInterval(cfg) * SECOND) <= g.lastPolledAt.value)
  }

  /** Sessions and authorizations of one grant: one session exactly when it is consumed, one
      authorization exactly when it is authorized or consumed, both for the recorded user and
      before expiry. */
  predicate Tracked(log: seq<Event>, h: Hash, g: Grant) {
    && Count(log, h, SessionIssued) == (if g.status == Consumed then 1 else 0)
    && Count(log, h, UserAuthorized) == (if g.status == Authorized || g.status == Consumed then 1 else 0)
    && forall i ::
      0 <= i < |log| && log[i].device == h && (log[i].kind == SessionIssued || log[i].kind == UserAuthorized) ==>
      log[i].user == g.userId && log[i].at < g.expiresAt
  }

  predicate Inv(cfg: Config, st: State, now: int) {
    KeysOk(st) && forall h :: h in st.grants ==>
      Paced(cfg, st.log, h, st.grants[h], now) && Tracked(st.log, h, st.grants[h])
  }

  lemma CountAdd(log: seq<Event>, e: Event, h: Hash, kind: Kind)
    ensures Count(log + [e], h, kind) == Count(log, h, kind) + if e.device == h && e.kind == kind then 1 else 0
  {
    assert (log + [e])[..|log|] == log;
  }

  lemma {:induction false} CountNone(log: seq<Event>, h: Hash, kind: Kind)
    requires forall i :: 0 <= i < |log| ==> log[i].device != h
    ensures Count(log, h, kind) == 0
  {
    if log != [] {
      CountNone(log[..|log| - 1], h, kind);
    }
  }

  /** Every kind at once. */
  lemma CountsAdd(log: seq<Event>, e: Event, h: Hash)
    ensures forall kind ::
      Count(log + [e], h, kind) == Count(log, h, kind) + if e.device == h && e.kind == kind then 1 else 0
  {
    forall kind {
      CountAdd(log, e, h, kind);
    }
  }

  // ---------------------------------------------------------------- one grant

  lemma TimePasses(cfg: Config, st: State, now: int, pause: nat)
    requires Inv(cfg, st, now)
    ensures Inv(cfg, st, now + pause)
  {
    hide Tracked, KeysOk;
  }

  lemma OthersUnmoved(cfg: Config, log: seq<Event>, e: Event, h: Hash, g: Grant, now: int)
    requires Paced(cfg, log, h, g, now) && Tracked(log, h, g) && e.device != h
    ensures Paced(cfg, log + [e], h, g, now) && Tracked(log + [e], h, g)
  {
    CountsAdd(log, e, h);
    hide Count;
  }

  /** With a non-negative increment the interval never drops below the initial one. */
  lemma IntervalGrows(cfg: Config, slows: nat)
    requires Seconds(cfg.slowDownIncrement) >= 0
    ensures (InitialInterval(cfg) + Seconds(cfg.slowDownIncrement) * slows) * SECOND >= InitialInterval(cfg) * SECOND
  {
    hide InitialInterval, Seconds;
    assert Seconds(cfg.slowDownIncrement) * slows >= 0;
  }

  lemma OneMoreUnit(n: nat, unit: int)
    requires n > 0
    ensures n * unit == (n - 1) * unit + unit
  {
  }

  lemma OneMoreTimes(unit: int, n: nat)
    ensures unit * (n + 1) == unit * n + unit
  {
  }

  lemma PendingIsPaced(cfg: Config, log: seq<Event>, h: Hash, g: Grant, now: int)
    requires Paced(cfg, log, h, g, now) && !TooFast(g, now) && now < g.expiresAt
    ensures Paced(cfg, log + [Event(ToldPending, h, 0, now)], h, g.(lastPolledAt := Some(now)), now)
  {
    CountsAdd(log, Event(ToldPending, h, 0, now), h);
    var n := Count(log, h, ToldPending);
    if Seconds(cfg.slowDownIncrement) >= 0 && n > 0 {
      IntervalGrows(cfg, Count(log, h, ToldSlowDown));
      OneMoreUnit(n, InitialInterval(cfg) * SECOND);
    }
    hide Count, InitialInterval, Seconds;
  }

  lemma SlowDownIsPaced(cfg: Config, log: seq<Event>, h: Hash, g: Grant, now: int)
    requires Paced(cfg, log, h, g, now) && now < g.expiresAt
    ensures Paced(cfg, log + [Event(ToldSlowDown, h, 0, now)], h,
                  g.(interval := g.interval + Seconds(cfg.slowDownIncrement), lastPolledAt := Some(now)), now)
  {
    hide Count, InitialInterval, Seconds;
    CountsAdd(log, Event(ToldSlowDown, h, 0, now), h);
    OneMoreTimes(Seconds(cfg.slowDownIncrement), Count(log, h, ToldSlowDown));
  }

  /** Answers that are not recorded leave the grant as it was. */
  lemma LostAnswerKeeps(cfg: Config, log: seq<Event>, h: Hash, g: Grant, e: Event, now: int)
    requires Paced(cfg, log, h, g, now) && Tracked(log, h, g) && (e.kind == LostPending || e.kind == LostSlowDown)
    ensures Paced(cfg, log + [e], h, g, now) && Tracked(log + [e], h, g)
  {
    hide Count, InitialInterval, Seconds;
    CountsAdd(log, e, h);
  }

  lemma DecidingIsPaced(cfg: Config, log: seq<Event>, h: Hash, g: Grant, g': Grant, e: Event, now: int)
    requires Paced(cfg, log, h, g, now) && (e.kind == SessionIssued || e.kind == UserAuthorized)
    requires g' == g.(status := g'.status, userId := g'.userId, scope := g'.scope)
    ensures Paced(cfg, log + [e], h, g', now) && Paced(cfg, log, h, g', now)
  {
    CountsAdd(log, e, h);
    hide Count, InitialInterval, Seconds;
  }

  lemma AnswerIsTracked(log: seq<Event>, h: Hash, g: Grant, g': Grant, e: Event)
    requires Tracked(log, h, g) && (e.kind == ToldPending || e.kind == ToldSlowDown)
    requires g' == g.(interval := g'.interval, lastPolledAt := g'.lastPolledAt)
    ensures Tracked(log + [e], h, g')
  {
    CountsAdd(log, e, h);
    hide Count;
  }

  lemma DecisionIsTracked(log: seq<Event>, h: Hash, g: Grant, user: Id, scope: string, now: int)
    requires Tracked(log, h, g) && now < g.expiresAt
    ensures g.status == Pending ==>
      Tracked(log + [Event(UserAuthorized, h, user, now)], h, g.(status := Authorized, userId := user, scope := scope))
    ensures g.status == Authorized ==>
      Tracked(log + [Event(SessionIssued, h, g.userId, now)], h, g.(status := Consumed))
    ensures g.status == Pending ==> Tracked(log, h, g.(status := Denied))
  {
    CountsAdd(log, Event(UserAuthorized, h, user, now), h);
    CountsAdd(log, Event(SessionIssued, h, g.userId, now), h);
    NoneCounted(log, h, UserAuthorized);
    NoneCounted(log, h, SessionIssued);
    hide Count;
  }

  lemma {:induction false} NoneCounted(log: seq<Event>, h: Hash, kind: Kind)
    ensures Count(log, h, kind) == 0 ==> forall i :: 0 <= i < |log| && log[i].device == h ==> log[i].kind != kind
  {
    if log != [] {
      NoneCounted(log[..|log| - 1], h, kind);
    }
  }

  // ---------------------------------------------------------------- one operation

  lemma LoggedKeeps(cfg: Config, st: State, h: Hash, g: Grant, e: Event, now: int)
    requires Inv(cfg, st, now) && h in st.grants && e.device == h && g.userCode == st.grants[h].userCode
    requires Paced(cfg, st.log + [e], h, g, now) && Tracked(st.log + [e], h, g)
    ensures Inv(cfg, Logged(st, h, g, e), now)
  {
    var after := Logged(st, h, g, e);
    forall k | k in after.grants
      ensures Paced(cfg, after.log, k, after.grants[k], now) && Tracked(after.log, k, after.grants[k])
    {
      if k != h {
        OthersUnmoved(cfg, st.log, e, k, st.grants[k], now);
      }
    }
    hide Paced, Tracked;
  }

  lemma NewGrantKeeps(cfg: Config, st: State, h: Hash, g: Grant, now: int)
    requires Inv(cfg, st, now) && st.next <= h.token && !UserCodeTaken(st.grants, g.userCode)
    requires Paced(cfg, st.log, h, g, now) && Tracked(st.log, h, g)
    ensures Inv(cfg, st.(grants := st.grants[h := g], next := h.token + 1), now)
  {
    hide Paced, Tracked;
  }

  lemma FreshGrantHolds(cfg: Config, st: State, h: Hash, client: string, code: string, scope: string, now: int)
    requires KeysOk(st) && st.next <= h.token
    ensures var g := Grant(client, code, scope, Pending, 0, now, now + cfg.expiresIn, InitialInterval(cfg), None, 0);
      Paced(cfg, st.log, h, g, now) && Tracked(st.log, h, g)
  {
    forall kind ensures Count(st.log, h, kind) == 0 {
      CountNone(st.log, h, kind);
    }
    hide Count, InitialInterval;
  }

  lemma StartKeeps(cfg: Config, st: State, client: string, scope: string, codes: seq<string>, now: int)
    requires Inv(cfg, st, now)
    ensures Inv(cfg, Start(cfg, st, client, scope, codes, now).0, now)
  {
    hide Paced, Tracked, Blank;
    var i := FirstFree(st.grants, codes, 0);
    if i < |codes| {
      var h := Hash(st.next + i);
      FreshGrantHolds(cfg, st, h, client, codes[i], scope, now);
      var g := Grant(client, codes[i], scope, Pending, 0, now, now + cfg.expiresIn, InitialInterval(cfg), None, 0);
      NewGrantKeeps(cfg, st, h, g, now);
    }
  }

  lemma LostKeeps(cfg: Config, st: State, e: Event, now: int)
    requires Inv(cfg, st, now) && e.device in st.grants && (e.kind == LostPending || e.kind == LostSlowDown)
    ensures Inv(cfg, OnlyLogged(st, e), now)
  {
    var after := OnlyLogged(st, e);
    forall k | k in after.grants
      ensures Paced(cfg, after.log, k, after.grants[k], now) && Tracked(after.log, k, after.grants[k])
    {
      LostAnswerKeeps(cfg, st.log, k, st.grants[k], e, now);
    }
    hide Paced, Tracked;
  }

  lemma GrantHolds(cfg: Config, st: State, h: Hash, now: int)
    requires Inv(cfg, st, now) && h in st.grants
    ensures Paced(cfg, st.log, h, st.grants[h], now) && Tracked(st.log, h, st.grants[h])
  {
  }

  lemma PollKeeps(cfg: Config, st: State, device: Id, client: string, createFails: bool, writeFails: bool, now: int)
    requires Inv(cfg, st, now)
    ensures Inv(cfg, Poll(cfg, st, device, client, createFails, writeFails, now).0, now)
  {
    hide Inv, Paced, Tracked, TooFast, Seconds, Logged, OnlyLogged;
    var h := Hash(device);
    if h in st.grants && now < st.grants[h].expiresAt {
      var g := st.grants[h];
      GrantHolds(cfg, st, h, now);
      match g.status
      case Pending =>
        LostKeeps(cfg, st, Event(LostSlowDown, h, 0, now), now);
        LostKeeps(cfg, st, Event(LostPending, h, 0, now), now);
        if TooFast(g, now) {
          var slowed := g.(interval := g.interval + Seconds(cfg.slowDownIncrement), lastPolledAt := Some(now));
          SlowDownIsPaced(cfg, st.log, h, g, now);
          AnswerIsTracked(st.log, h, g, slowed, Event(ToldSlowDown, h, 0, now));
          LoggedKeeps(cfg, st, h, slowed, Event(ToldSlowDown, h, 0, now), now);
        } else {
          var polled := g.(lastPolledAt := Some(now));
          PendingIsPaced(cfg, st.log, h, g, now);
          AnswerIsTracked(st.log, h, g, polled, Event(ToldPending, h, 0, now));
          LoggedKeeps(cfg, st, h, polled, Event(ToldPending, h, 0, now), now);
        }
      case Authorized =>
        var e := Event(SessionIssued, h, g.userId, now);
        DecidingIsPaced(cfg, st.log, h, g, g.(status := Consumed), e, now);
        DecisionIsTracked(st.log, h, g, 0, "", now);
        LoggedKeeps(cfg, st, h, g.(status := Consumed), e, now);
      case _ =>
    }
  }

  lemma AuthorizeKeeps(cfg: Config, st: State, code: string, user: Id, scope: string, now: int)
    requires Inv(cfg, st, now)
    ensures Inv(cfg, Authorize(cfg, st, code, user, scope, now).0, now)
  {
    hide Inv, Paced, Tracked, Logged;
    if Authorize(cfg, st, code, user, scope, now).1.Done? {
      var h := ByUserCode(st.grants, code);
      var g := st.grants[h];
      GrantHolds(cfg, st, h, now);
      var granted := if scope != "" then scope else g.scope;
      var e := Event(UserAuthorized, h, user, now);
      DecidingIsPaced(cfg, st.log, h, g, g.(status := Authorized, userId := user, scope := granted), e, now);
      DecisionIsTracked(st.log, h, g, user, granted, now);
      LoggedKeeps(cfg, st, h, g.(status := Authorized, userId := user, scope := granted), e, now);
    }
  }

  lemma DenyKeeps(cfg: Config, st: State, code: string, now: int)
    requires Inv(cfg, st, now)
    ensures Inv(cfg, Deny(st, code, now).0, now)
  {
    if Deny(st, code, now).1.Done? {
      var h := ByUserCode(st.grants, code);
      var g := st.grants[h];
      DecidingIsPaced(cfg, st.log, h, g, g.(status := Denied), Event(UserAuthorized, h, 0, now), now);
      DecisionIsTracked(st.log, h, g, 0, "", now);
      hide Paced, Tracked;
    }
  }

  lemma ApplyKeeps(cfg: Config, st: State, now: int, op: Op)
    requires Inv(cfg, st, now)
    ensures Inv(cfg, Apply(cfg, st, now, op).0, now)
  {
    hide Inv, Start, Poll, Authorize, Deny;
    match op
    case DoStart(client, scope, codes) => StartKeeps(cfg, st, client, scope, codes, now);
    case DoPoll(device, client, createFails, writeFails) =>
      PollKeeps(cfg, st, device, client, createFails, writeFails, now);
    case DoAuthorize(code, user, scope) => AuthorizeKeeps(cfg, st, code, user, scope, now);
    case DoDeny(code) => DenyKeeps(cfg, st, code, now);
  }

  /** The moves of the machine. */
  predicate Moves(from: Status, to: Status) {
    from == to || (from == Pending && (to == Authorized || to == Denied)) || (from == Authorized && to == Consumed)
  }

  /** Grants stay, their status moves along the machine, a decided one keeps its user, and the
      trace only grows. */
  ghost predicate Follows(st: State, after: State) {
    && st.next <= after.next && st.log <= after.log
    && forall h :: h in st.grants ==>
      && h in after.grants && Moves(st.grants[h].status, after.grants[h].status)
      && (st.grants[h].status != Pending ==> after.grants[h].userId == st.grants[h].userId)
  }

  lemma StartMoves(cfg: Config, st: State, client: string, scope: string, codes: seq<string>, now: int)
    requires KeysOk(st)
    ensures Follows(st, Start(cfg, st, client, scope, codes, now).0)
  {
    hide FirstFree, Blank, InitialInterval;
  }

  lemma PollMoves(cfg: Config, st: State, device: Id, client: string, createFails: bool, writeFails: bool, now: int)
    ensures Follows(st, Poll(cfg, st, device, client, createFails, writeFails, now).0)
  {
    hide TooFast, Seconds;
  }

  lemma DecisionMoves(cfg: Config, st: State, code: string, user: Id, scope: string, now: int)
    ensures Follows(st, Authorize(cfg, st, code, user, scope, now).0)
    ensures Follows(st, Deny(st, code, now).0)
  {
    hide UserCodeTaken;
  }

  lemma ApplyMoves(cfg: Config, st: State, now: int, op: Op)
    requires KeysOk(st)
    ensures Follows(st, Apply(cfg, st, now, op).0)
  {
    hide KeysOk, Follows, Start, Poll, Authorize, Deny;
    match op
    case DoStart(client, scope, codes) => StartMoves(cfg, st, client, scope, codes, now);
    case DoPoll(device, client, createFails, writeFails) =>
      PollMoves(cfg, st, device, client, createFails, writeFails, now);
    case DoAuthorize(code, user, scope) => DecisionMoves(cfg, st, code, user, scope, now);
    case DoDeny(code) => DecisionMoves(cfg, st, code, 0, "", now);
  }

  // ---------------------------------------------------------------- runs

  lemma {:induction false} RunKeepsInv(cfg: Config, st: State, now: int, steps: seq<Step>)
    requires Inv(cfg, st, now)
    ensures Inv(cfg, Run(cfg, st, now, steps).0, Run(cfg, st, now, steps).1)
    decreases |steps|
  {
    hide Inv, Apply;
    if steps != [] {
      var later := now + steps[0].pause;
      TimePasses(cfg, st, now, steps[0].pause);
      ApplyKeeps(cfg, st, later, steps[0].op);
      RunKeepsInv(cfg, Apply(cfg, st, later, steps[0].op).0, later, steps[1..]);
    }
  }

  /** In every run, every step moves every grant along the machine. */
  lemma EveryStepMoves(cfg: Config, now: int, steps: seq<Step>, step: Step)
    ensures var (st, t) := Run(cfg, EMPTY, now, steps);
      Follows(st, Apply(cfg, st, t + step.pause, step.op).0)
  {
    hide Apply, Run, Follows, Paced, Tracked;
    RunKeepsInv(cfg, EMPTY, now, steps);
    ApplyMoves(cfg, Run(cfg, EMPTY, now, steps).0, Run(cfg, EMPTY, now, steps).1 + step.pause, step.op);
  }

  /** In every reachable state a device code has at most one session: it has one exactly when
      its grant is consumed, for the user who authorized it, issued before expiry. */
  lemma OneSessionPerCode(cfg: Config, now: int, steps: seq<Step>, h: Hash)
    ensures var st := Run(cfg, EMPTY, now, steps).0;
      && Count(st.log, h, SessionIssued) == (if h in st.grants && st.grants[h].status == Consumed then 1 else 0)
      && Count(st.log, h, UserAuthorized)
        == (if h in st.grants && (st.grants[h].status == Authorized || st.grants[h].status == Consumed) then 1 else 0)
      && forall i ::
        (0 <= i < |st.log| && st.log[i].device == h
         && (st.log[i].kind == SessionIssued || st.log[i].kind == UserAuthorized)) ==>
        h in st.grants && st.log[i].user == st.grants[h].userId && st.log[i].at < st.grants[h].expiresAt
  {
    RunKeepsInv(cfg, EMPTY, now, steps);
    var st := Run(cfg, EMPTY, now, steps).0;
    if h in st.grants {
      assert Tracked(st.log, h, st.grants[h]);
    } else {
      CountNone(st.log, h, SessionIssued);
      CountNone(st.log, h, UserAuthorized);
    }
    hide Run, Count, Paced;
  }

  /** In every reachable state the polling interval of a grant is the initial one plus the
      increment for every recorded slow_down answer; so it counts all slow_down answers if and
      only if none was lost, or the increment is less than a second. */
  lemma IntervalCountsSlowDowns(cfg: Config, now: int, steps: seq<Step>, h: Hash)
    requires h in Run(cfg, EMPTY, now, steps).0.grants
    ensures var st := Run(cfg, EMPTY, now, steps).0;
      var (told, lost) := (Count(st.log, h, ToldSlowDown), Count(st.log, h, LostSlowDown));
      var increment := Seconds(cfg.slowDownIncrement);
      && st.grants[h].interval == InitialInterval(cfg) + increment * told
      && (st.grants[h].interval == InitialInterval(cfg) + increment * (told + lost) <==> lost == 0 || increment == 0)
  {
    RunKeepsInv(cfg, EMPTY, now, steps);
    hide Run, Count, Tracked, InitialInterval, Seconds;
    var st := Run(cfg, EMPTY, now, steps).0;
    TimesApart(Seconds(cfg.slowDownIncrement), Count(st.log, h, ToldSlowDown), Count(st.log, h, LostSlowDown));
  }

  lemma TimesApart(unit: int, a: int, b: int)
    ensures unit * (a + b) == unit * a <==> b == 0 || unit == 0
  {
    assert unit * (a + b) == unit * a + unit * b;
  }

  /** Whatever the schedule of polls, n recorded authorization_pending answers took n - 1 initial
      intervals of the grant's life; and so did all of them, if none was lost. */
  lemma PendingAnswersAreSpread(cfg: Config, now: int, steps: seq<Step>, h: Hash)
    requires Seconds(cfg.slowDownIncrement) >= 0
    ensures var st := Run(cfg, EMPTY, now, steps).0;
      var (told, lost) := (Count(st.log, h, ToldPending), Count(st.log, h, LostPending));
      && (told > 0 ==> (told - 1) * (InitialInterval(cfg) * SECOND) < cfg.expiresIn)
      && (told + lost > 0 && lost == 0 ==> (told + lost - 1) * (InitialInterval(cfg) * SECOND) < cfg.expiresIn)
  {
    hide Run, Count, Tracked, Paced, InitialInterval, Seconds;
    RunKeepsInv(cfg, EMPTY, now, steps);
    var st := Run(cfg, EMPTY, now, steps).0;
    if h !in st.grants {
      CountNone(st.log, h, ToldPending);
    } else {
      PacedIsSpread(cfg, st.log, h, st.grants[h], Run(cfg, EMPTY, now, steps).1);
    }
  }

  lemma PacedIsSpread(cfg: Config, log: seq<Event>, h: Hash, g: Grant, now: int)
    requires Paced(cfg, log, h, g, now) && Seconds(cfg.slowDownIncrement) >= 0
    ensures var told := Count(log, h, ToldPending);
      told > 0 ==> (told - 1) * (InitialInterval(cfg) * SECOND) < cfg.expiresIn
  {
    hide Count, InitialInterval, Seconds;
  }

  /** A session that cannot be created leaves the grant authorized, for a later poll to fulfil. */
  lemma FailedSessionIsRetried(cfg: Config, st: State, device: Id, client: string, now: int, later: int)
    requires now <= later && Poll(cfg, st, device, client, true, false, now).1 == Failed(SessionFailure)
    requires later < st.grants[Hash(device)].expiresAt
    ensures Poll(cfg, st, device, client, true, false, now).0 == st
    ensures Poll(cfg, st, device, client, false, false, later).1 == Issued(st.grants[Hash(device)].userId)
    ensures var after := Poll(cfg, st, device, client, false, false, later).0;
      Poll(cfg, after, device, client, false, false, later).1 == Failed(InvalidGrant)
  {
  }

  // ---------------------------------------------------------------- a negative increment

  function Polls(device: Id, client: string, n: nat): seq<Step> {
    if n == 0 then [] else [Step(0, DoPoll(device, client, false, false))] + Polls(device, client, n - 1)
  }

  /** Polled at this instant already, pending and not expired. */
  predicate Hammered(st: State, device: Id, client: string, now: int) {
    && device != 0 && client != "" && Hash(device) in st.grants
    && var g := st.grants[Hash(device)];
    g.clientId == client && g.status == Pending && now < g.expiresAt && g.lastPolledAt == Some(now)
  }

  lemma PollAgain(cfg: Config, st: State, device: Id, client: string, now: int)
    requires Hammered(st, device, client, now)
    ensures var after := Poll(cfg, st, device, client, false, false, now).0;
      var (g, g') := (st.grants[Hash(device)], after.grants[Hash(device)]);
      && Hammered(after, device, client, now)
      && (if g.interval > 0 then
            g'.interval == g.interval + Seconds(cfg.slowDownIncrement)
            && Count(after.log, Hash(device), ToldPending) == Count(st.log, Hash(device), ToldPending)
          else
            g'.interval == g.interval
            && Count(after.log, Hash(device), ToldPending) == Count(st.log, Hash(device), ToldPending) + 1)
  {
    CountsAdd(st.log, Event(ToldSlowDown, Hash(device), 0, now), Hash(device));
    CountsAdd(st.log, Event(ToldPending, Hash(device), 0, now), Hash(device));
    hide Seconds, Count;
  }

  /** Polling on at one instant uses up any interval and then collects pending answers. */
  lemma {:induction false} HammeringPaysOff(cfg: Config, st: State, device: Id, client: string, now: int, target: nat)
    returns (n: nat)
    requires Hammered(st, device, client, now) && Seconds(cfg.slowDownIncrement) < 0
    ensures Count(Run(cfg, st, now, Polls(device, client, n)).0.log, Hash(device), ToldPending) >= target
    decreases
      if st.grants[Hash(device)].interval > 0 then st.grants[Hash(device)].interval else 0,
      if Count(st.log, Hash(device), ToldPending) < target then target - Count(st.log, Hash(device), ToldPending) else 0
  {
    hide Seconds, Count, Poll;
    if Count(st.log, Hash(device), ToldPending) >= target {
      return 0;
    }
    PollAgain(cfg, st, device, client, now);
    var m := HammeringPaysOff(cfg, Poll(cfg, st, device, client, false, false, now).0, device, client, now, target);
    n := m + 1;
    var steps := Polls(device, client, n);
    assert steps[0] == Step(0, DoPoll(device, client, false, false)) && steps[1..] == Polls(device, client, m);
  }

  /** A grant that was just started. */
  lemma FreshGrant(cfg: Config) returns (st: State)
    requires cfg.expiresIn > 0
    ensures st == Start(cfg, EMPTY, "tv", "", ["AAAA-AAAA"], 0).0 && NeverPolled(st, 1, "tv", 0)
  {
    st := Start(cfg, EMPTY, "tv", "", ["AAAA-AAAA"], 0).0;
    assert FirstFree(EMPTY.grants, ["AAAA-AAAA"], 0) == 0;
    assert !Blank("tv") by {
      assert "tv"[0] == 't';
    }
  }

  /** So the spreading of pending answers holds for all schedules exactly when the increment is
      not negative: with a negative one some schedule breaks it. */
  lemma NegativeIncrementBreaksPacing(cfg: Config) returns (steps: seq<Step>, h: Hash)
    requires Seconds(cfg.slowDownIncrement) < 0 && cfg.expiresIn > 0
    ensures var n := Count(Run(cfg, EMPTY, 0, steps).0.log, h, ToldPending);
      n > 0 && (n - 1) * (InitialInterval(cfg) * SECOND) >= cfg.expiresIn
  {
    h := Hash(1);
    var start := Step(0, DoStart("tv", "", ["AAAA-AAAA"]));
    var first := Step(0, DoPoll(1, "tv", false, false));
    var started := FreshGrant(cfg);
    var polled := Poll(cfg, started, 1, "tv", false, false, 0).0;
    assert Hammered(polled, 1, "tv", 0);
    hide Seconds, Count, Hammered, Poll, Start;
    var n := HammeringPaysOff(cfg, polled, 1, "tv", 0, cfg.expiresIn + 1);
    steps := [start, first] + Polls(1, "tv", n);
    TwoSteps(cfg, EMPTY, 0, start, first, Polls(1, "tv", n));
    var total := Count(Run(cfg, EMPTY, 0, steps).0.log, h, ToldPending);
    EnoughUnits(total, InitialInterval(cfg) * SECOND, cfg.expiresIn);
  }

  lemma TwoSteps(cfg: Config, st: State, now: int, a: Step, b: Step, rest: seq<Step>)
    ensures var (mid, t) := (Apply(cfg, st, now + a.pause, a.op).0, now + a.pause);
      Run(cfg, st, now, [a, b] + rest) == Run(cfg, Apply(cfg, mid, t + b.pause, b.op).0, t + b.pause, rest)
  {
    hide Apply;
    var steps := [a, b] + rest;
    assert steps[1..] == [b] + rest && ([b] + rest)[1..] == rest;
  }

  lemma EnoughUnits(n: int, unit: int, least: int)
    requires n >= least + 1 && unit >= 1 && least >= 0
    ensures (n - 1) * unit >= least
  {
  }

  // ---------------------------------------------------------------- lost writes

  function LostPolls(device: Id, client: string, n: nat): seq<Step> {
    if n == 0 then [] else [Step(0, DoPoll(device, client, false, true))] + LostPolls(device, client, n - 1)
  }

  /** Pending, not expired and with no recorded poll. */
  predicate NeverPolled(st: State, device: Id, client: string, now: int) {
    && device != 0 && client != "" && Hash(device) in st.grants
    && var g := st.grants[Hash(device)];
    g.clientId == client && g.status == Pending && now < g.expiresAt && g.lastPolledAt == None
  }

  lemma LostPoll(cfg: Config, st: State, device: Id, client: string, now: int)
    requires NeverPolled(st, device, client, now)
    ensures var after := Poll(cfg, st, device, client, false, true, now).0;
      && NeverPolled(after, device, client, now)
      && Count(after.log, Hash(device), LostPending) == Count(st.log, Hash(device), LostPending) + 1
  {
    hide Seconds, Count;
    CountsAdd(st.log, Event(LostPending, Hash(device), 0, now), Hash(device));
  }

  /** While their writes fail, all polls are answered authorization_pending. */
  lemma {:induction false} LostPollsAreUnlimited(cfg: Config, st: State, device: Id, client: string, now: int, n: nat)
    requires NeverPolled(st, device, client, now)
    ensures var after := Run(cfg, st, now, LostPolls(device, client, n)).0;
      Count(after.log, Hash(device), LostPending) == Count(st.log, Hash(device), LostPending) + n
    decreases n
  {
    hide Seconds, Count, Poll, NeverPolled;
    if n > 0 {
      var steps := LostPolls(device, client, n);
      assert steps[0] == Step(0, DoPoll(device, client, false, true)) && steps[1..] == LostPolls(device, client, n - 1);
      LostPoll(cfg, st, device, client, now);
      LostPollsAreUnlimited(cfg, Poll(cfg, st, device, client, false, true, now).0, device, client, now, n - 1);
    }
  }

  /** So the spreading does not extend to lost answers, whatever the increment: for every
      configuration some schedule of polls with failing writes breaks it. */
  lemma LostWritesBreakPacing(cfg: Config) returns (steps: seq<Step>, h: Hash)
    requires cfg.expiresIn > 0
    ensures var log := Run(cfg, EMPTY, 0, steps).0.log;
      var n := Count(log, h, ToldPending) + Count(log, h, LostPending);
      n > 0 && (n - 1) * (InitialInterval(cfg) * SECOND) >= cfg.expiresIn
  {
    h := Hash(1);
    var start := Step(0, DoStart("tv", "", ["AAAA-AAAA"]));
    var started := FreshGrant(cfg);
    steps := [start] + LostPolls(1, "tv", cfg.expiresIn + 1);
    assert steps[1..] == LostPolls(1, "tv", cfg.expiresIn + 1);
    hide Seconds, Count, NeverPolled, Start;
    LostPollsAreUnlimited(cfg, started, 1, "tv", 0, cfg.expiresIn + 1);
    var log := Run(cfg, EMPTY, 0, steps).0.log;
    EnoughUnits(Count(log, h, ToldPending) + Count(log, h, LostPending), InitialInterval(cfg) * SECOND, cfg.expiresIn);
  }
}
