/** The device authorization grant of RFC 8628 (plugins/device-authorization/service.go) as
    functions on its table. Times are in nanoseconds. */
module DeviceGrant {
  import opened Wrappers
  import opened Identifiers

  const SECOND: int := 1_000_000_000

  datatype Config = Config(expiresIn: int, pollingInterval: int, slowDownIncrement: int, maxFailedAttempts: int)

  /** int(d.Seconds()): whole seconds, toward zero. */
  function Seconds(d: int): int {
    if d >= 0 then d / SECOND else -(-d / SECOND)
  }

  function InitialInterval(cfg: Config): (i: int)
    ensures i > 0
  {
    if Seconds(cfg.pollingInterval) <= 0 then 5 else Seconds(cfg.pollingInterval)
  }

  datatype Status = Pending | Authorized | Denied | Consumed

  datatype Grant = Grant(
    clientId: string,
    userCode: string,
    scope: string,
    status: Status,
    userId: Id,
    createdAt: int,
    expiresAt: int,
    interval: int,
    lastPolledAt: Option<int>,
    failedAttempts: int)

  /** An answer is lost if it was given but its update of the grant failed. */
  datatype Kind = ToldPending | ToldSlowDown | LostPending | LostSlowDown | SessionIssued | UserAuthorized

  datatype Event = Event(kind: Kind, device: Hash, user: Id, at: int)

  /** The table, by device code hash, and the trace of what was answered and done. */
  datatype State = State(grants: map<Hash, Grant>, log: seq<Event>, next: Id)

  datatype Error =
    | InvalidInput | InvalidGrant | ExpiredToken | AccessDenied | SlowDown | AuthorizationPending
    | InvalidUserCode | MaxAttemptsExceeded | AlreadyAuthorized | AlreadyDenied | AlreadyConsumed
    | Conflict | SessionFailure

  datatype Reply = Failed(error: Error) | Started(device: Id, userCode: string) | Issued(user: Id) | Done

  predicate Blank(s: string) {
    forall i :: 0 <= i < |s| ==> s[i] in " \t\n\r"
  }

  predicate UserCodeTaken(grants: map<Hash, Grant>, code: string) {
    exists h | h in grants :: grants[h].userCode == code
  }

  /** The first generated user code that is not taken, of at most three. */
  function FirstFree(grants: map<Hash, Grant>, codes: seq<string>, from: nat): (i: nat)
    requires from <= |codes|
    ensures from <= i <= |codes|
    ensures forall j :: from <= j < i ==> UserCodeTaken(grants, codes[j])
    ensures i < |codes| ==> !UserCodeTaken(grants, codes[i])
    decreases |codes| - from
  {
    if from == |codes| || !UserCodeTaken(grants, codes[from]) then from else FirstFree(grants, codes, from + 1)
  }

  /** A generated device code and a user code per attempt. */
  function Start(cfg: Config, st: State, client: string, scope: string, codes: seq<string>, now: int): (State, Reply) {
    var i := FirstFree(st.grants, codes, 0);
    if Blank(client) then (st, Failed(InvalidInput))
    else if i == |codes| then (st.(next := st.next + |codes|), Failed(Conflict))
    else
      var device := st.next + i;
      var g := Grant(client, codes[i], scope, Pending, 0, now, now + cfg.expiresIn, InitialInterval(cfg), None, 0);
      (st.(grants := st.grants[Hash(device) := g], next := device + 1), Started(device, codes[i]))
  }

  function Logged(st: State, h: Hash, g: Grant, e: Event): State {
    st.(grants := st.grants[h := g], log := st.log + [e])
  }

  function OnlyLogged(st: State, e: Event): State {
    st.(log := st.log + [e])
  }

  predicate TooFast(g: Grant, now: int) {
    g.lastPolledAt.Some? && now - g.lastPolledAt.value < g.interval * SECOND
  }

  /** A failing update of the polling columns is ignored, a failing session creation is not. */
  function Poll(cfg: Config, st: State, device: Id, client: string, createFails: bool, writeFails: bool, now: int)
    : (State, Reply)
  {
    var h := Hash(device);
    if device == 0 || client == "" then (st, Failed(InvalidInput))
    else if h !in st.grants || st.grants[h].clientId != client then (st, Failed(InvalidGrant))
    else
      var g := st.grants[h];
      if g.expiresAt <= now then (st, Failed(ExpiredToken))
      else
        match g.status
        case Consumed => (st, Failed(InvalidGrant))
        case Denied => (st, Failed(AccessDenied))
        case Pending =>
          if TooFast(g, now) then
            var slowed := g.(interval := g.interval + Seconds(cfg.slowDownIncrement), lastPolledAt := Some(now));
            (if writeFails then OnlyLogged(st, Event(LostSlowDown, h, 0, now))
             else Logged(st, h, slowed, Event(ToldSlowDown, h, 0, now)),
             Failed(SlowDown))
          else
            (if writeFails then OnlyLogged(st, Event(LostPending, h, 0, now))
             else Logged(st, h, g.(lastPolledAt := Some(now)), Event(ToldPending, h, 0, now)),
             Failed(AuthorizationPending))
        case Authorized =>
          if createFails then (st, Failed(SessionFailure))
          else (Logged(st, h, g.(status := Consumed), Event(SessionIssued, h, g.userId, now)), Issued(g.userId))
  }

  ghost function ByUserCode(grants: map<Hash, Grant>, code: string): (h: Hash)
    requires UserCodeTaken(grants, code)
    ensures h in grants && grants[h].userCode == code
  {
    var h :| h in grants && grants[h].userCode == code; h
  }

  function Decided(s: Status): Error
    requires s != Pending
  {
    match s
    case Authorized => AlreadyAuthorized
    case Denied => AlreadyDenied
    case Consumed => AlreadyConsumed
  }

  ghost function Authorize(cfg: Config, st: State, code: string, user: Id, scope: string, now: int): (State, Reply) {
    if code == "" || user == 0 then (st, Failed(InvalidInput))
    else if !UserCodeTaken(st.grants, code) then (st, Failed(InvalidUserCode))
    else
      var h := ByUserCode(st.grants, code);
      var g := st.grants[h];
      if g.failedAttempts >= cfg.maxFailedAttempts then (st, Failed(MaxAttemptsExceeded))
      else if g.expiresAt <= now then (st, Failed(ExpiredToken))
      else if g.status != Pending then (st, Failed(Decided(g.status)))
      else
        var authorized := g.(status := Authorized, userId := user, scope := if scope != "" then scope else g.scope);
        (Logged(st, h, authorized, Event(UserAuthorized, h, user, now)), Done)
  }

  ghost function Deny(st: State, code: string, now: int): (State, Reply) {
    if code == "" then (st, Failed(InvalidInput))
    else if !UserCodeTaken(st.grants, code) then (st, Failed(InvalidUserCode))
    else
      var h := ByUserCode(st.grants, code);
      var g := st.grants[h];
      if g.expiresAt <= now then (st, Failed(ExpiredToken))
      else if g.status != Pending then (st, Failed(Decided(g.status)))
      else (st.(grants := st.grants[h := g.(status := Denied)]), Done)
  }

  // ---------------------------------------------------------------- runs

  datatype Op =
    | DoStart(client: string, scope: string, codes: seq<string>)
    | DoPoll(device: Id, client: string, createFails: bool, writeFails: bool)
    | DoAuthorize(code: string, user: Id, scope: string)
    | DoDeny(code: string)

  ghost function Apply(cfg: Config, st: State, now: int, op: Op): (State, Reply) {
    match op
    case DoStart(client, scope, codes) => Start(cfg, st, client, scope, codes, now)
    case DoPoll(device, client, createFails, writeFails) => Poll(cfg, st, device, client, createFails, writeFails, now)
    case DoAuthorize(code, user, scope) => Authorize(cfg, st, code, user, scope, now)
    case DoDeny(code) => Deny(st, code, now)
  }

  datatype Step = Step(pause: nat, op: Op)

  ghost function Run(cfg: Config, st: State, now: int, steps: seq<Step>): (State, int)
    decreases |steps|
  {
    if steps == [] then (st, now)
    else
      var later := now + steps[0].pause;
      Run(cfg, Apply(cfg, st, later, steps[0].op).0, later, steps[1..])
  }

  const EMPTY: State := State(map[], [], 1)

  /** How many events of a kind the trace has for a device code. */
  function Count(log: seq<Event>, h: Hash, kind: Kind): nat {
    if log == [] then 0
    else
      var e := log[|log| - 1];
      Count(log[..|log| - 1], h, kind) + if e.device == h && e.kind == kind then 1 else 0
  }
}
