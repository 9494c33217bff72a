/** The device authorization service, step by step (plugins/device-authorization/service.go). */
module DeviceService {
  import opened Wrappers
  import opened Identifiers
  import opened DeviceGrant
  import opened DeviceLaws

  class Service {
    const cfg: Config
    var db: State
    var now: int

    constructor (cfg: Config, start: int)
      ensures this.cfg == cfg && db == EMPTY && now == start && Inv(cfg, db, now)
    {
      this.cfg, db, now := cfg, EMPTY, start;
    }

    /** Up to as many attempts as there are generated user codes. */
    method StartGrant(client: string, scope: string, codes: seq<string>) returns (reply: Reply)
      modifies this`db
      ensures (db, reply) == Start(cfg, old(db), client, scope, codes, now)
      ensures Inv(cfg, old(db), now) ==> Inv(cfg, db, now)
    {
      hide Inv, Blank, Seconds;
      if Inv(cfg, db, now) {
        StartKeeps(cfg, db, client, scope, codes, now);
      }
      if Blank(client) {
        return Failed(InvalidInput);
      }
      ghost var st := db;
      for i := 0 to |codes|
        invariant db == st.(next := st.next + i)
        invariant FirstFree(st.grants, codes, 0) == FirstFree(st.grants, codes, i)
      {
        var device := db.next;
        db := db.(next := device + 1);
        var interval := Seconds(cfg.pollingInterval);
        if interval <= 0 {
          interval := 5;
        }
        if !UserCodeTaken(db.grants, codes[i]) {
          var g := Grant(client, codes[i], scope, Pending, 0, now, now + cfg.expiresIn, interval, None, 0);
          db := db.(grants := db.grants[Hash(device) := g]);
          return Started(device, codes[i]);
        }
      }
      reply := Failed(Conflict);
    }

    method PollGrant(device: Id, client: string, createFails: bool, writeFails: bool) returns (reply: Reply)
      modifies this`db
      ensures (db, reply) == Poll(cfg, old(db), device, client, createFails, writeFails, now)
      ensures Inv(cfg, old(db), now) ==> Inv(cfg, db, now)
    {
      hide Inv, Seconds;
      if Inv(cfg, db, now) {
        PollKeeps(cfg, db, device, client, createFails, writeFails, now);
      }
      if device == 0 || client == "" {
        return Failed(InvalidInput);
      }
      var h := Hash(device);
      var snapshot := db;
      if h !in db.grants {
        return Failed(InvalidGrant);
      }
      var g := db.grants[h];
      if g.clientId != client {
        return Failed(InvalidGrant);
      }
      if g.expiresAt <= now {
        return Failed(ExpiredToken);
      }
      match g.status
      case Consumed =>
        reply := Failed(InvalidGrant);
      case Denied =>
        reply := Failed(AccessDenied);
      case Pending =>
        if g.lastPolledAt.Some? {
          var elapsed := now - g.lastPolledAt.value;
          if elapsed < g.interval * SECOND {
            g := g.(interval := g.interval + Seconds(cfg.slowDownIncrement), lastPolledAt := Some(now));
            if !writeFails {
              db := db.(grants := db.grants[h := g]);
            }
            db := db.(log := db.log + [Event(if writeFails then LostSlowDown else ToldSlowDown, h, 0, now)]);
            return Failed(SlowDown);
          }
        }
        g := g.(lastPolledAt := Some(now));
        if !writeFails {
          db := db.(grants := db.grants[h := g]);
        }
        db := db.(log := db.log + [Event(if writeFails then LostPending else ToldPending, h, 0, now)]);
        reply := Failed(AuthorizationPending);
      case Authorized =>
        g := g.(status := Consumed);
        db := db.(grants := db.grants[h := g]);
        if createFails {
          db := snapshot;
          return Failed(SessionFailure);
        }
        db := db.(log := db.log + [Event(SessionIssued, h, g.userId, now)]);
        reply := Issued(g.userId);
    }

    method FindByUserCode(code: string) returns (h: Option<Hash>)
      requires KeysOk(db)
      ensures h == if UserCodeTaken(db.grants, code) then Some(ByUserCode(db.grants, code)) else None
    {
      if k :| k in db.grants && db.grants[k].userCode == code {
        return Some(k);
      }
      h := None;
    }

    method AuthorizeGrant(code: string, user: Id, scope: string) returns (reply: Reply)
      requires KeysOk(db)
      modifies this`db
      ensures (db, reply) == Authorize(cfg, old(db), code, user, scope, now)
      ensures Inv(cfg, old(db), now) ==> Inv(cfg, db, now)
    {
      hide Inv;
      if Inv(cfg, db, now) {
        AuthorizeKeeps(cfg, db, code, user, scope, now);
      }
      if code == "" || user == 0 {
        return Failed(InvalidInput);
      }
      var h := FindByUserCode(code);
      if h.None? {
        return Failed(InvalidUserCode);
      }
      var g := db.grants[h.value];
      if g.failedAttempts >= cfg.maxFailedAttempts {
        return Failed(MaxAttemptsExceeded);
      }
      if g.expiresAt <= now {
        return Failed(ExpiredToken);
      }
      if g.status != Pending {
        return Failed(Decided(g.status));
      }
      g := g.(status := Authorized, userId := user);
      if scope != "" {
        g := g.(scope := scope);
      }
      db := db.(grants := db.grants[h.value := g], log := db.log + [Event(UserAuthorized, h.value, user, now)]);
      reply := Done;
    }

    method DenyGrant(code: string) returns (reply: Reply)
      requires KeysOk(db)
      modifies this`db
      ensures (db, reply) == Deny(old(db), code, now)
      ensures Inv(cfg, old(db), now) ==> Inv(cfg, db, now)
    {
      hide Inv;
      if Inv(cfg, db, now) {
        DenyKeeps(cfg, db, code, now);
      }
      if code == "" {
        return Failed(InvalidInput);
      }
      var h := FindByUserCode(code);
      if h.None? {
        return Failed(InvalidUserCode);
      }
      var g := db.grants[h.value];
      if g.expiresAt <= now {
        return Failed(ExpiredToken);
      }
      if g.status != Pending {
        return Failed(Decided(g.status));
      }
      db := db.(grants := db.grants[h.value := g.(status := Denied)]);
      reply := Done;
    }

    method Handle(op: Op) returns (reply: Reply)
      requires KeysOk(db)
      modifies this`db
      ensures (db, reply) == Apply(cfg, old(db), now, op)
    {
      hide Start, Poll, Authorize, Deny, KeysOk;
      match op
      case DoStart(client, scope, codes) => reply := StartGrant(client, scope, codes);
      case DoPoll(device, client, createFails, writeFails) =>
        reply := PollGrant(device, client, createFails, writeFails);
      case DoAuthorize(code, user, scope) => reply := AuthorizeGrant(code, user, scope);
      case DoDeny(code) => reply := DenyGrant(code);
    }

    /** Any sequence of requests: the service is the machine whose runs are studied. */
    method Serve(steps: seq<Step>)
      requires Inv(cfg, db, now)
      modifies this
      ensures (db, now) == Run(cfg, old(db), old(now), steps) && Inv(cfg, db, now)
    {
      hide Apply, Inv, KeysOk;
      ghost var st, t := db, now;
      for i := 0 to |steps|
        invariant Inv(cfg, db, now)
        invariant Run(cfg, db, now, steps[i..]) == Run(cfg, st, t, steps)
      {
        assert steps[i..][0] == steps[i] && steps[i..][1..] == steps[i + 1..];
        TimePasses(cfg, db, now, steps[i].pause);
        now := now + steps[i].pause;
        ApplyKeeps(cfg, db, now, steps[i].op);
        InvHasKeys(cfg, db, now);
        var _ := Handle(steps[i].op);
      }
    }
  }

  lemma InvHasKeys(cfg: Config, st: State, now: int)
    requires Inv(cfg, st, now)
    ensures KeysOk(st)
  {
  }
}
