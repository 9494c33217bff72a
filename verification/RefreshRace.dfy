/** Concurrent refresh requests (plugins/oauth-provider/service.go:398-457): each looks its token
    up, revokes it and inserts a successor, with steps of other requests in between. Unlike the
    consumption of a code, the revoking update does not ask that the row is still unrevoked. */
module RefreshRace {
  import opened Wrappers
  import opened Identifiers

  /** A refresh token and the code it descends from. */
  datatype Row = Row(code: Id, expiresAt: int, revokedAt: Option<int>)

  datatype Phase = Found | Updated | Issued | Refused | Failed

  /** A refresh request under way or finished; the code is that of the row it found. */
  datatype Call = Call(token: Id, code: Id, phase: Phase)

  /** Refresh tokens, codes exchanged so far and requests. */
  datatype State = State(rows: map<Id, Row>, codes: set<Id>, calls: map<nat, Call>, next: Id, now: int)

  /** A code is exchanged once; Revoke is a step of RevokeToken or RevokeClient. */
  datatype Action =
    | Exchange(code: Id, ttl: int)
    | Lookup(call: nat, token: Id)
    | Update(call: nat, fails: bool)
    | Insert(call: nat, ttl: int, fails: bool)
    | Revoke(token: Id)
    | Tick(d: nat)

  predicate Enabled(s: State, a: Action) {
    match a
    case Exchange(code, _) => code !in s.codes
    case Lookup(c, _) => c !in s.calls
    case Update(c, _) => c in s.calls && s.calls[c].phase == Found
    case Insert(c, _, _) => c in s.calls && s.calls[c].phase == Updated
    case _ => true
  }

  predicate Usable(s: State, token: Id) {
    token in s.rows && s.rows[token].revokedAt.None? && s.now < s.rows[token].expiresAt
  }

  function WithRevoked(s: State, token: Id): State
    requires token in s.rows
  {
    s.(rows := s.rows[token := s.rows[token].(revokedAt := Some(s.now))])
  }

  function WithRow(s: State, code: Id, ttl: int): State {
    s.(rows := s.rows[s.next := Row(code, s.now + ttl, None)], next := s.next + 1)
  }

  function WithPhase(s: State, c: nat, phase: Phase): State
    requires c in s.calls
  {
    s.(calls := s.calls[c := s.calls[c].(phase := phase)])
  }

  function Next(s: State, a: Action): State {
    match a
    case Exchange(code, ttl) => WithRow(s, code, ttl).(codes := s.codes + {code})
    case Lookup(c, token) =>
      var call := if Usable(s, token) then Call(token, s.rows[token].code, Found) else Call(token, 0, Refused);
      s.(calls := s.calls[c := call])
    case Update(c, fails) =>
      if c !in s.calls || s.calls[c].token !in s.rows then s
      else WithPhase(if fails then s else WithRevoked(s, s.calls[c].token), c, Updated)
    case Insert(c, ttl, fails) =>
      if c !in s.calls then s
      else if fails then WithPhase(s, c, Failed)
      else WithRow(WithPhase(s, c, Issued), s.calls[c].code, ttl)
    case Revoke(token) =>
      if token in s.rows && s.rows[token].revokedAt.None? then WithRevoked(s, token) else s
    case Tick(d) => s.(now := s.now + d)
  }

  function Run(s: State, actions: seq<Action>): State
    decreases |actions|
  {
    if actions == [] then s else Run(Next(s, actions[0]), actions[1..])
  }

  predicate Possible(s: State, actions: seq<Action>)
    decreases |actions|
  {
    actions == [] || (Enabled(s, actions[0]) && Possible(Next(s, actions[0]), actions[1..]))
  }

  const START: State := State(map[], {}, map[], 1, 0)

  /** What each step does: a lookup finds its token exactly while that is unrevoked and unexpired,
      the update revokes it whatever happened meanwhile, the insertion adds one token for the code. */
  lemma StepsExactly(s: State, a: Action)
    requires Enabled(s, a)
    ensures var n := Next(s, a);
      && (a.Exchange? ==> n.rows == s.rows[s.next := Row(a.code, s.now + a.ttl, None)] && n.codes == s.codes + {a.code})
      && (a.Lookup? ==>
          && n.rows == s.rows && n.calls.Keys == s.calls.Keys + {a.call} && n.calls[a.call].token == a.token
          && (n.calls[a.call].phase == Found <==>
              a.token in s.rows && s.rows[a.token].revokedAt == None && s.now < s.rows[a.token].expiresAt)
          && (n.calls[a.call].phase != Found ==> n.calls[a.call].phase == Refused))
      && (a.Update? && s.calls[a.call].token in s.rows ==>
          var t := s.calls[a.call].token;
          && n.rows == (if a.fails then s.rows else s.rows[t := s.rows[t].(revokedAt := Some(s.now))])
          && n.calls[a.call].phase == Updated)
      && (a.Insert? ==>
          && n.rows == (if a.fails then s.rows else s.rows[s.next := Row(s.calls[a.call].code, s.now + a.ttl, None)])
          && n.calls[a.call].phase == (if a.fails then Failed else Issued))
      && (a.Revoke? ==>
          n.rows == if a.token in s.rows && s.rows[a.token].revokedAt == None then
              s.rows[a.token := s.rows[a.token].(revokedAt := Some(s.now))]
            else s.rows)
      && n.now == (if a.Tick? then s.now + a.d else s.now)
  {
  }

  /** The tokens descending from a code, and the requests that added one. */
  function Family(s: State, code: Id): set<Id> {
    set t | t in s.rows && s.rows[t].code == code
  }

  function Live(s: State, code: Id): set<Id> {
    set t | t in s.rows && s.rows[t].code == code && s.rows[t].revokedAt.None?
  }

  function Dead(s: State, code: Id): set<Id> {
    set t | t in s.rows && s.rows[t].code == code && s.rows[t].revokedAt.Some?
  }

  function Issuers(s: State, code: Id): set<nat> {
    set c | c in s.calls && s.calls[c].code == code && s.calls[c].phase == Issued
  }

  // ---------------------------------------------------------------- conservation

  /** Past its lookup a request names a row, and the code of that row. */
  predicate Truthful(s: State, call: Call) {
    call.phase != Refused ==> call.token in s.rows && s.rows[call.token].code == call.code
  }

  predicate RowsOk(s: State) {
    && (forall t :: t in s.rows ==> t < s.next && s.rows[t].code in s.codes)
    && (forall c :: c in s.calls ==> Truthful(s, s.calls[c]))
  }

  /** A code begins with one refresh token and each issuing request adds one. */
  predicate Counted(s: State) {
    forall code :: code in s.codes ==> |Family(s, code)| == 1 + |Issuers(s, code)|
  }

  lemma StepKeepsRows(s: State, a: Action)
    requires RowsOk(s) && Enabled(s, a)
    ensures RowsOk(Next(s, a))
  {
  }

  lemma FamilyStep(s: State, a: Action, code: Id)
    requires RowsOk(s) && Enabled(s, a)
    ensures Family(Next(s, a), code) ==
      if (a.Exchange? && a.code == code) || (a.Insert? && !a.fails && s.calls[a.call].code == code) then
        Family(s, code) + {s.next}
      else Family(s, code)
    ensures s.next !in Family(s, code)
  {
  }

  lemma IssuersStep(s: State, a: Action, code: Id)
    requires RowsOk(s) && Enabled(s, a)
    ensures Issuers(Next(s, a), code) ==
      if a.Insert? && !a.fails && s.calls[a.call].code == code then Issuers(s, code) + {a.call} else Issuers(s, code)
    ensures a.Insert? ==> a.call !in Issuers(s, code)
  {
  }

  lemma NoStrangers(s: State, code: Id)
    requires RowsOk(s) && code !in s.codes
    ensures Family(s, code) == {} && Issuers(s, code) == {}
  {
  }

  lemma StepKeepsCount(s: State, a: Action)
    requires RowsOk(s) && Counted(s) && Enabled(s, a)
    ensures Counted(Next(s, a))
  {
    forall code | code in Next(s, a).codes ensures |Family(Next(s, a), code)| == 1 + |Issuers(Next(s, a), code)| {
      FamilyStep(s, a, code);
      IssuersStep(s, a, code);
      if code !in s.codes {
        NoStrangers(s, code);
      }
      hide Family, Issuers, RowsOk;
    }
  }

  lemma {:induction false} RunKeepsCount(s: State, actions: seq<Action>)
    requires RowsOk(s) && Counted(s) && Possible(s, actions)
    ensures RowsOk(Run(s, actions)) && Counted(Run(s, actions))
    decreases |actions|
  {
    hide RowsOk, Counted, Next, Enabled;
    if actions != [] {
      StepKeepsRows(s, actions[0]);
      StepKeepsCount(s, actions[0]);
      RunKeepsCount(Next(s, actions[0]), actions[1..]);
    }
  }

  lemma LiveOrDead(s: State, code: Id)
    ensures |Family(s, code)| == |Live(s, code)| + |Dead(s, code)|
  {
    assert Family(s, code) == Live(s, code) + Dead(s, code);
    assert Live(s, code) !! Dead(s, code);
  }

  /** In every interleaving, with failing writes and revocations, a code has one unrevoked
      descendant more than requests that issued one, less the descendants revoked. */
  lemma Conservation(actions: seq<Action>, code: Id)
    requires Possible(START, actions) && code in Run(START, actions).codes
    ensures var s := Run(START, actions);
      |Live(s, code)| == 1 + |Issuers(s, code)| - |Dead(s, code)|
  {
    RunKeepsCount(START, actions);
    LiveOrDead(Run(START, actions), code);
  }

  // ---------------------------------------------------------------- refreshes alone

  /** No failing write and no revocation. */
  predicate Clean(a: Action) {
    !a.Revoke? && (a.Update? ==> !a.fails) && (a.Insert? ==> !a.fails)
  }

  predicate AllClean(actions: seq<Action>) {
    forall i :: 0 <= i < |actions| ==> Clean(actions[i])
  }

  /** The request found its token usable. */
  predicate Won(s: State, c: nat) {
    c in s.calls && (s.calls[c].phase == Found || s.calls[c].phase == Updated || s.calls[c].phase == Issued)
  }

  predicate RevokedBy(s: State, c: nat, token: Id) {
    c in s.calls && s.calls[c].token == token && (s.calls[c].phase == Updated || s.calls[c].phase == Issued)
  }

  /** The revoked tokens are those whose update some request has made. */
  ghost predicate Explained(s: State) {
    && (forall c, t :: RevokedBy(s, c, t) ==> t in s.rows && s.rows[t].revokedAt.Some?)
    && (forall t :: t in s.rows && s.rows[t].revokedAt.Some? ==> exists c :: RevokedBy(s, c, t))
  }

  /** No two requests have found the same token usable. */
  ghost predicate Apart(s: State) {
    forall c, d :: Won(s, c) && Won(s, d) && s.calls[c].token == s.calls[d].token ==> c == d
  }

  /** A request finds a token usable while another has found it but not yet revoked it. */
  ghost predicate Contends(s: State, a: Action) {
    && a.Lookup? && Usable(s, a.token)
    && exists c :: c in s.calls && s.calls[c].phase == Found && s.calls[c].token == a.token
  }

  ghost predicate Contended(s: State, actions: seq<Action>)
    decreases |actions|
  {
    actions != [] && (Contends(s, actions[0]) || Contended(Next(s, actions[0]), actions[1..]))
  }

  lemma StepExplained(s: State, a: Action)
    requires RowsOk(s) && Explained(s) && Enabled(s, a) && Clean(a)
    ensures Explained(Next(s, a))
  {
    var n := Next(s, a);
    forall t | t in n.rows && n.rows[t].revokedAt.Some? ensures exists c :: RevokedBy(n, c, t) {
      if t in s.rows && s.rows[t].revokedAt.Some? {
        var c :| RevokedBy(s, c, t);
        assert RevokedBy(n, c, t);
      } else {
        assert RevokedBy(n, a.call, t);
      }
    }
    assert forall c, t :: RevokedBy(n, c, t) ==> RevokedBy(s, c, t) || (a.Update? && c == a.call);
  }

  /** Two requests come to share a token exactly through a contending lookup. */
  lemma StepApart(s: State, a: Action)
    requires RowsOk(s) && Explained(s) && Enabled(s, a)
    requires Clean(a)
    ensures Apart(Next(s, a)) <==> Apart(s) && !Contends(s, a)
  {
    var n := Next(s, a);
    assert forall c :: Won(s, c) ==> Won(n, c) && n.calls[c].token == s.calls[c].token;
    assert forall c :: Won(n, c) && !Won(s, c) ==> a.Lookup? && c == a.call && Usable(s, a.token);
    if Contends(s, a) {
      var c :| c in s.calls && s.calls[c].phase == Found && s.calls[c].token == a.token;
      assert Won(n, c) && Won(n, a.call) && n.calls[c].token == n.calls[a.call].token;
    } else if Apart(s) {
      forall c, d | Won(n, c) && Won(n, d) && n.calls[c].token == n.calls[d].token ensures c == d {
        if c != d && (!Won(s, c) || !Won(s, d)) {
          var other := if Won(s, c) then c else d;
          assert RevokedBy(s, other, a.token);
        }
      }
    } else {
      var c, d :| Won(s, c) && Won(s, d) && s.calls[c].token == s.calls[d].token && c != d;
      assert Won(n, c) && Won(n, d) && n.calls[c].token == n.calls[d].token;
    }
  }

  lemma {:induction false} ApartUnlessContended(s: State, actions: seq<Action>)
    requires RowsOk(s) && Explained(s) && Possible(s, actions) && AllClean(actions)
    ensures RowsOk(Run(s, actions)) && Explained(Run(s, actions))
    ensures Apart(Run(s, actions)) <==> Apart(s) && !Contended(s, actions)
    decreases |actions|
  {
    hide RowsOk, Explained, Apart, Contends, Next, Enabled, Clean;
    if actions != [] {
      StepKeepsRows(s, actions[0]);
      StepExplained(s, actions[0]);
      StepApart(s, actions[0]);
      ApartUnlessContended(Next(s, actions[0]), actions[1..]);
    }
  }

  /** No request is under way. */
  predicate Quiet(s: State) {
    forall c :: c in s.calls ==> s.calls[c].phase != Found && s.calls[c].phase != Updated
  }

  function TokensOf(s: State, cs: set<nat>): (ts: set<Id>)
    requires forall c :: c in cs ==> c in s.calls
  {
    set c | c in cs :: s.calls[c].token
  }

  lemma {:induction false} CountTokens(s: State, cs: set<nat>)
    requires forall c :: c in cs ==> c in s.calls
    ensures |TokensOf(s, cs)| <= |cs|
    ensures |TokensOf(s, cs)| == |cs| <==>
      forall c, d :: c in cs && d in cs && s.calls[c].token == s.calls[d].token ==> c == d
    decreases |cs|
  {
    if cs == {} {
    } else {
      var c :| c in cs;
      var rest := cs - {c};
      CountTokens(s, rest);
      assert TokensOf(s, cs) == TokensOf(s, rest) + {s.calls[c].token};
      if s.calls[c].token in TokensOf(s, rest) {
        var d :| d in rest && s.calls[d].token == s.calls[c].token;
        assert TokensOf(s, cs) == TokensOf(s, rest);
        assert d in cs && d != c;
      }
    }
  }

  lemma DeadAreTokens(s: State, code: Id)
    requires RowsOk(s) && Explained(s) && Quiet(s)
    ensures Dead(s, code) == TokensOf(s, Issuers(s, code))
  {
    forall t | t in Dead(s, code) ensures t in TokensOf(s, Issuers(s, code)) {
      var c :| RevokedBy(s, c, t);
      assert Truthful(s, s.calls[c]);
      assert c in Issuers(s, code);
    }
    forall t | t in TokensOf(s, Issuers(s, code)) ensures t in Dead(s, code) {
      var c :| c in Issuers(s, code) && s.calls[c].token == t;
      assert Truthful(s, s.calls[c]) && RevokedBy(s, c, t);
    }
  }

  /** The exact number left by refreshes alone: one, and one more for every successful request
      beyond the first with the same token. */
  lemma ForkCount(actions: seq<Action>, code: Id)
    requires Possible(START, actions) && AllClean(actions)
    requires var s := Run(START, actions); Quiet(s) && code in s.codes
    ensures var s := Run(START, actions);
      |Live(s, code)| == 1 + |Issuers(s, code)| - |TokensOf(s, Issuers(s, code))|
  {
    Conservation(actions, code);
    ApartUnlessContended(START, actions);
    DeadAreTokens(Run(START, actions), code);
  }

  /** Every code keeps a single unrevoked descendant if and only if no request looks a token up
      while another has looked it up and not yet revoked it. */
  lemma SingleUnlessContended(actions: seq<Action>)
    requires Possible(START, actions) && AllClean(actions)
    requires Quiet(Run(START, actions))
    ensures var s := Run(START, actions);
      (forall code :: code in s.codes ==> |Live(s, code)| == 1) <==> !Contended(START, actions)
  {
    var s := Run(START, actions);
    ApartUnlessContended(START, actions);
    forall code | code in s.codes
      ensures |Live(s, code)| == 1 <==> forall c, d ::
        c in Issuers(s, code) && d in Issuers(s, code) && s.calls[c].token == s.calls[d].token ==> c == d
    {
      ForkCount(actions, code);
      CountTokens(s, Issuers(s, code));
    }
    ApartByCode(s);
  }

  lemma ApartByCode(s: State)
    requires RowsOk(s) && Quiet(s)
    ensures Apart(s) <==> forall code :: code in s.codes ==> forall c, d ::
      c in Issuers(s, code) && d in Issuers(s, code) && s.calls[c].token == s.calls[d].token ==> c == d
  {
    if !Apart(s) {
      var c, d :| Won(s, c) && Won(s, d) && s.calls[c].token == s.calls[d].token && c != d;
      assert Truthful(s, s.calls[c]) && Truthful(s, s.calls[d]);
      assert c in Issuers(s, s.calls[c].code) && d in Issuers(s, s.calls[c].code);
    }
    forall code, c, d | Apart(s) && c in Issuers(s, code) && d in Issuers(s, code)
      && s.calls[c].token == s.calls[d].token
      ensures c == d
    {
      assert Won(s, c) && Won(s, d);
    }
  }

  lemma TakeStep(s: State, a: Action, rest: seq<Action>)
    ensures Run(s, [a] + rest) == Run(Next(s, a), rest)
    ensures Possible(s, [a] + rest) <==> Enabled(s, a) && Possible(Next(s, a), rest)
    ensures AllClean([a] + rest) <==> Clean(a) && AllClean(rest)
  {
    hide Next, Enabled, Clean;
    var all := [a] + rest;
    assert all[1..] == rest && all[0] == a;
    assert forall i :: 0 <= i < |rest| ==> rest[i] == all[i + 1];
  }

  /** After both lookups, the rest of two requests that share the token of the first code. */
  lemma BothRotate(s: State, ttl: int)
    requires s == State(map[1 := Row(1, ttl, None)], {1}, map[0 := Call(1, 1, Found), 1 := Call(1, 1, Found)], 2, 0)
    ensures var actions := [Update(0, false)]
        + ([Update(1, false)] + ([Insert(0, ttl, false)] + ([Insert(1, ttl, false)] + [])));
      && Possible(s, actions) && AllClean(actions)
      && Run(s, actions) == State(map[1 := Row(1, ttl, Some(0)), 2 := Row(1, ttl, None), 3 := Row(1, ttl, None)], {1},
                                  map[0 := Call(1, 1, Issued), 1 := Call(1, 1, Issued)], 4, 0)
  {
    var dead := map[1 := Row(1, ttl, Some(0))];
    var s1 := Next(s, Update(0, false));
    assert s1 == State(dead, {1}, map[0 := Call(1, 1, Updated), 1 := Call(1, 1, Found)], 2, 0);
    var s2 := Next(s1, Update(1, false));
    assert s2 == State(dead, {1}, map[0 := Call(1, 1, Updated), 1 := Call(1, 1, Updated)], 2, 0);
    var s3 := Next(s2, Insert(0, ttl, false));
    assert s3 == State(dead[2 := Row(1, ttl, None)], {1}, map[0 := Call(1, 1, Issued), 1 := Call(1, 1, Updated)], 3, 0);
    var s4 := Next(s3, Insert(1, ttl, false));
    TakeStep(s, Update(0, false), [Update(1, false)] + ([Insert(0, ttl, false)] + ([Insert(1, ttl, false)] + [])));
    TakeStep(s1, Update(1, false), [Insert(0, ttl, false)] + ([Insert(1, ttl, false)] + []));
    TakeStep(s2, Insert(0, ttl, false), [Insert(1, ttl, false)] + []);
    TakeStep(s3, Insert(1, ttl, false), []);
  }

  lemma BothFind(ttl: int)
    requires ttl > 0
    ensures Next(START, Exchange(1, ttl)).calls == map[]
    ensures var s := Next(START, Exchange(1, ttl));
      Next(Next(s, Lookup(0, 1)), Lookup(1, 1))
        == State(map[1 := Row(1, ttl, None)], {1}, map[0 := Call(1, 1, Found), 1 := Call(1, 1, Found)], 2, 0)
  {
    assert Next(START, Exchange(1, ttl)) == State(map[1 := Row(1, ttl, None)], {1}, map[], 2, 0);
  }

  lemma Forked(s: State, ttl: int)
    requires s.rows == map[1 := Row(1, ttl, Some(0)), 2 := Row(1, ttl, None), 3 := Row(1, ttl, None)]
    requires s.calls == map[0 := Call(1, 1, Issued), 1 := Call(1, 1, Issued)]
    ensures Quiet(s) && Issuers(s, 1) == {0, 1} && |Live(s, 1)| == 2
  {
    assert Live(s, 1) == {2, 3};
  }

  /** The schedule that forks a lineage: two requests with one token, both looked up before
      either is revoked, and both answered with a new token. */
  lemma TwoRefreshesFork(ttl: int) returns (actions: seq<Action>)
    requires ttl > 0
    ensures Possible(START, actions) && AllClean(actions)
    ensures var s := Run(START, actions);
      Quiet(s) && 1 in s.codes && Issuers(s, 1) == {0, 1} && |Live(s, 1)| == 2
  {
    hide Run, Possible, Next, AllClean, Quiet, Issuers, Live;
    var rest := [Update(0, false)] + ([Update(1, false)] + ([Insert(0, ttl, false)] + ([Insert(1, ttl, false)] + [])));
    actions := [Exchange(1, ttl)] + ([Lookup(0, 1)] + ([Lookup(1, 1)] + rest));
    var s1 := Next(START, Exchange(1, ttl));
    var s2 := Next(s1, Lookup(0, 1));
    var s3 := Next(s2, Lookup(1, 1));
    BothFind(ttl);
    BothRotate(s3, ttl);
    TakeStep(START, Exchange(1, ttl), [Lookup(0, 1)] + ([Lookup(1, 1)] + rest));
    TakeStep(s1, Lookup(0, 1), [Lookup(1, 1)] + rest);
    TakeStep(s2, Lookup(1, 1), rest);
    LookupsEnabled(s1);
    Forked(Run(START, actions), ttl);
  }

  lemma LookupsEnabled(s: State)
    requires s.calls == map[]
    ensures Enabled(s, Lookup(0, 1)) && Enabled(Next(s, Lookup(0, 1)), Lookup(1, 1))
  {
  }
}
