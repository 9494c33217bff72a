/** Exactly when each request of the device flow succeeds, what it answers and what it leaves. */
module DeviceExact {
  import opened Wrappers
  import opened Identifiers
  import opened DeviceGrant
  import opened DeviceLaws

  /** The device names a grant of this client that has not expired. */
  predicate Known(st: State, device: Id, client: string, now: int) {
    && device != 0 && client != "" && Hash(device) in st.grants
    && st.grants[Hash(device)].clientId == client && now < st.grants[Hash(device)].expiresAt
  }

  /** A poll came before the interval of the grant was over. */
  predicate Early(g: Grant, now: int) {
    match g.lastPolledAt
    case None => false
    case Some(at) => now < at + g.interval * 1_000_000_000
  }

  /** Only the grant polled can change. */
  predicate OthersSame(st: State, after: State, h: Hash) {
    && after.grants.Keys == st.grants.Keys && after.next == st.next
    && forall k :: k in st.grants && k != h ==> after.grants[k] == st.grants[k]
  }

  /** RFC 8628, sections 3.4 and 3.5: every answer to a poll. A session comes exactly from an
      authorized grant of the client itself, before expiry, for the user who authorized it. */
  lemma PolledExactlyWhen(cfg: Config, st: State, device: Id, client: string, createFails: bool, writeFails: bool,
                          now: int)
    ensures var (after, reply) := Poll(cfg, st, device, client, createFails, writeFails, now);
      var h := Hash(device);
      var known := Known(st, device, client, now);
      && (reply.Issued? <==> known && st.grants[h].status == Authorized && !createFails)
      && (reply.Issued? ==>
          && reply.user == st.grants[h].userId && OthersSame(st, after, h)
          && after.grants[h] == st.grants[h].(status := Consumed))
      && (reply == Failed(SessionFailure) <==> known && st.grants[h].status == Authorized && createFails)
      && (reply == Failed(SlowDown) <==> known && st.grants[h].status == Pending && Early(st.grants[h], now))
      && (reply == Failed(AuthorizationPending) <==>
          known && st.grants[h].status == Pending && !Early(st.grants[h], now))
      && (reply == Failed(AccessDenied) <==> known && st.grants[h].status == Denied)
      && (reply == Failed(ExpiredToken) <==>
          && device != 0 && client != "" && h in st.grants && st.grants[h].clientId == client
          && st.grants[h].expiresAt <= now)
      && (reply == Failed(InvalidInput) <==> device == 0 || client == "")
      && (reply == Failed(InvalidGrant) <==>
          && device != 0 && client != ""
          && (h in st.grants && st.grants[h].clientId == client ==>
              now < st.grants[h].expiresAt && st.grants[h].status == Consumed))
      && (reply == Failed(SlowDown) && !writeFails ==>
          && OthersSame(st, after, h) && after.grants[h].lastPolledAt == Some(now)
          && after.grants[h].interval == st.grants[h].interval + Seconds(cfg.slowDownIncrement)
          && after.grants[h] == st.grants[h].(interval := after.grants[h].interval, lastPolledAt := Some(now)))
      && (reply == Failed(AuthorizationPending) && !writeFails ==>
          OthersSame(st, after, h) && after.grants[h] == st.grants[h].(lastPolledAt := Some(now)))
      && (reply.Failed? && (writeFails || (reply.error != SlowDown && reply.error != AuthorizationPending)) ==>
          after.grants == st.grants && after.next == st.next)
  {
    hide Seconds;
  }

  /** Whole seconds, dropping the rest. */
  lemma SecondsExactly(d: int)
    ensures 0 <= d ==> Seconds(d) * 1_000_000_000 <= d < (Seconds(d) + 1) * 1_000_000_000
    ensures Seconds(-d) == -Seconds(d)
  {
  }

  /** RFC 8628, section 3.2: a grant starts pending, for this client, with its whole lifetime, and
      five seconds between polls unless configured. */
  lemma StartedExactlyWhen(cfg: Config, st: State, client: string, scope: string, codes: seq<string>, now: int)
    requires KeysOk(st)
    ensures var (after, reply) := Start(cfg, st, client, scope, codes, now);
      && (reply.Started? <==>
          && (exists i :: 0 <= i < |client| && client[i] !in " \t\n\r")
          && (exists i :: 0 <= i < |codes| && forall h :: h in st.grants ==> st.grants[h].userCode != codes[i]))
      && (reply.Started? ==>
          && Hash(reply.device) !in st.grants && reply.userCode in codes
          && (forall h :: h in st.grants ==> st.grants[h].userCode != reply.userCode)
          && after.grants.Keys == st.grants.Keys + {Hash(reply.device)}
          && (forall h :: h in st.grants ==> after.grants[h] == st.grants[h])
          && var g := after.grants[Hash(reply.device)];
          && g.clientId == client && g.userCode == reply.userCode && g.scope == scope && g.status == Pending
          && g.createdAt == now && g.expiresAt == now + cfg.expiresIn && g.lastPolledAt == None
          && g.interval == (if cfg.pollingInterval < 1_000_000_000 then 5 else cfg.pollingInterval / 1_000_000_000))
      && (!reply.Started? ==> after.grants == st.grants)
      && (reply == Failed(InvalidInput) <==> forall i :: 0 <= i < |client| ==> client[i] in " \t\n\r")
  {
    var i := FirstFree(st.grants, codes, 0);
    if i == |codes| {
      forall j | 0 <= j < |codes| ensures exists h :: h in st.grants && st.grants[h].userCode == codes[j] {
        assert UserCodeTaken(st.grants, codes[j]);
      }
    }
  }

  /** A user code names the one grant it was given out for. */
  lemma CodeNames(st: State, code: string, h: Hash)
    requires KeysOk(st) && h in st.grants && st.grants[h].userCode == code
    ensures UserCodeTaken(st.grants, code) && ByUserCode(st.grants, code) == h
  {
  }

  /** Exactly a pending, unexpired grant with fewer failures than the limit is authorized. */
  lemma AuthorizedExactlyWhen(cfg: Config, st: State, h: Hash, user: Id, scope: string, now: int)
    requires KeysOk(st) && h in st.grants
    ensures var g := st.grants[h];
      var (after, reply) := Authorize(cfg, st, g.userCode, user, scope, now);
      && (reply == Done <==>
          && g.userCode != "" && user != 0 && g.failedAttempts < cfg.maxFailedAttempts && now < g.expiresAt
          && g.status == Pending)
      && (reply == Done ==>
          && OthersSame(st, after, h)
          && after.grants[h]
            == g.(status := Authorized, userId := user, scope := if scope == "" then g.scope else scope))
      && (reply != Done ==> reply.Failed? && after == st)
      && (reply == Failed(ExpiredToken) <==>
          g.userCode != "" && user != 0 && g.failedAttempts < cfg.maxFailedAttempts && g.expiresAt <= now)
  {
    CodeNames(st, st.grants[h].userCode, h);
  }

  /** Exactly a pending, unexpired grant is denied. */
  lemma DeniedExactlyWhen(st: State, h: Hash, now: int)
    requires KeysOk(st) && h in st.grants
    ensures var g := st.grants[h];
      var (after, reply) := Deny(st, g.userCode, now);
      && (reply == Done <==> g.userCode != "" && now < g.expiresAt && g.status == Pending)
      && (reply == Done ==> OthersSame(st, after, h) && after.grants[h] == g.(status := Denied))
      && (reply != Done ==> reply.Failed? && after == st)
  {
    CodeNames(st, st.grants[h].userCode, h);
  }

  /** A user code nobody was given changes nothing. */
  lemma UnknownCode(cfg: Config, st: State, code: string, user: Id, scope: string, now: int)
    requires forall h :: h in st.grants ==> st.grants[h].userCode != code
    ensures Authorize(cfg, st, code, user, scope, now)
      == (st, Failed(if code == "" || user == 0 then InvalidInput else InvalidUserCode))
    ensures Deny(st, code, now) == (st, Failed(if code == "" then InvalidInput else InvalidUserCode))
  {
  }
}
