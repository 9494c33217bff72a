/** Concurrent consumers of single-use tokens (verification.go:39-68 over
    adapter/bridge/bridge.go:484-515): each consumer looks the token up, checks the copy it read
    and marks the row used if it still is unused, with other steps in between. */
module TokenRace {
  import opened Wrappers
  import opened Identifiers
  import opened Core

  datatype Row = Row(purpose: Purpose, subject: Id, hash: Hash, expiresAt: int)

  datatype Stored = Stored(row: Row, usedAt: Option<int>)

  datatype Phase =
    | Looked(copy: Stored)
    | Checked(row: Row, at: int)
    | Consumed(row: Row, at: int)
    | Refused

  /** One ConsumeToken call: what it asks for, the row it found and how far it has come. */
  datatype Call = Call(purpose: Purpose, hash: Hash, id: Id, phase: Phase)

  /** Rows present, every row ever issued, and the calls under way or finished. */
  datatype State = State(tokens: map<Id, Stored>, issued: map<Id, Row>, calls: map<nat, Call>, now: int)

  datatype Action =
    | Issue(id: Id, row: Row)
    | Lookup(call: nat, purpose: Purpose, hash: Hash, found: Option<Id>)
    | Check(call: nat)
    | MarkUsed(call: nat)
    | DeleteBySubject(purpose: Purpose, subject: Id)
    | DeleteExpired(before: int)
    | Tick(d: nat)

  predicate Matches(row: Row, purpose: Purpose, subject: Id) {
    row.purpose == purpose && row.subject == subject
  }

  ghost predicate Enabled(s: State, a: Action) {
    match a
    case Issue(id, _) => id !in s.issued
    case Lookup(c, _, hash, found) =>
      c !in s.calls
      && (match found
          case Some(id) => id in s.tokens && s.tokens[id].row.hash == hash
          case None => forall id :: id in s.tokens ==> s.tokens[id].row.hash != hash)
    case Check(c) => c in s.calls && s.calls[c].phase.Looked?
    case MarkUsed(c) => c in s.calls && s.calls[c].phase.Checked?
    case _ => true
  }

  function WithPhase(s: State, c: nat, phase: Phase): State
    requires c in s.calls
  {
    s.(calls := s.calls[c := s.calls[c].(phase := phase)])
  }

  function Next(s: State, a: Action): State {
    match a
    case Issue(id, row) => s.(tokens := s.tokens[id := Stored(row, None)], issued := s.issued[id := row])
    case Lookup(c, purpose, hash, found) =>
      var phase := if found.Some? && found.value in s.tokens then Looked(s.tokens[found.value]) else Refused;
      s.(calls := s.calls[c := Call(purpose, hash, if found.Some? then found.value else 0, phase)])
    case Check(c) =>
      if c !in s.calls || !s.calls[c].phase.Looked? then s
      else
        var copy := s.calls[c].phase.copy;
        if copy.row.purpose != s.calls[c].purpose || copy.usedAt.Some? || copy.row.expiresAt <= s.now then
          WithPhase(s, c, Refused)
        else WithPhase(s, c, Checked(copy.row, s.now))
    case MarkUsed(c) =>
      if c !in s.calls || !s.calls[c].phase.Checked? then s
      else
        var (id, row, at) := (s.calls[c].id, s.calls[c].phase.row, s.calls[c].phase.at);
        if id in s.tokens && s.tokens[id].usedAt.None? then
          WithPhase(s, c, Consumed(row, at)).(tokens := s.tokens[id := s.tokens[id].(usedAt := Some(at))])
        else WithPhase(s, c, Refused)
    case DeleteBySubject(purpose, subject) =>
      s.(tokens := map id | id in s.tokens && !Matches(s.tokens[id].row, purpose, subject) :: s.tokens[id])
    case DeleteExpired(before) =>
      s.(tokens := map id | id in s.tokens && s.tokens[id].row.expiresAt >= before :: s.tokens[id])
    case Tick(d) => s.(now := s.now + d)
  }

  /** Deletions take exactly the tokens of one purpose and subject, or those that expired before a
      time; a check passes exactly for the purpose asked for, an unused copy and before expiry; a
      row is marked exactly while it is unused, and with the time of the check. */
  lemma StepsExactly(s: State, a: Action)
    requires Enabled(s, a)
    ensures var t := Next(s, a);
      && (a.DeleteBySubject? ==> forall id :: id in t.tokens <==>
            id in s.tokens && (s.tokens[id].row.purpose != a.purpose || s.tokens[id].row.subject != a.subject))
      && (a.DeleteExpired? ==> forall id ::
            id in t.tokens <==> id in s.tokens && a.before <= s.tokens[id].row.expiresAt)
      && (a.DeleteBySubject? || a.DeleteExpired? ==>
          t == s.(tokens := t.tokens) && forall id :: id in t.tokens ==> t.tokens[id] == s.tokens[id])
      && (a.Check? ==>
          var copy := s.calls[a.call].phase.copy;
          var passed := copy.row.purpose == s.calls[a.call].purpose && copy.usedAt == None
            && s.now < copy.row.expiresAt;
          t == s.(calls := s.calls[a.call := s.calls[a.call].(
                  phase := if passed then Checked(copy.row, s.now) else Refused)]))
      && (a.MarkUsed? ==>
          var (id, at) := (s.calls[a.call].id, s.calls[a.call].phase.at);
          var unused := id in s.tokens && s.tokens[id].usedAt == None;
          && (t.calls[a.call].phase.Consumed? <==> unused) && (!unused ==> t.tokens == s.tokens)
          && (unused ==> t.tokens == s.tokens[id := s.tokens[id].(usedAt := Some(at))]))
      && (a.Tick? ==> t == s.(now := s.now + a.d))
  {
  }

  /** The states of a run, one action after the other. */
  function Run(s: State, actions: seq<Action>): State
    decreases |actions|
  {
    if actions == [] then s else Run(Next(s, actions[0]), actions[1..])
  }

  ghost predicate Possible(s: State, actions: seq<Action>)
    decreases |actions|
  {
    actions == [] || (Enabled(s, actions[0]) && Possible(Next(s, actions[0]), actions[1..]))
  }

  predicate Succeeded(s: State, c: nat) {
    c in s.calls && s.calls[c].phase.Consumed?
  }

  // ---------------------------------------------------------------- the invariant

  predicate RowsTruthful(s: State) {
    forall id :: id in s.tokens ==> id in s.issued && s.tokens[id].row == s.issued[id]
  }

  /** What a call knows of its row is what was issued, and a passed check still holds. */
  predicate CallTruthful(s: State, call: Call) {
    match call.phase
    case Looked(copy) => call.id in s.issued && copy.row == s.issued[call.id] && copy.row.hash == call.hash
    case Checked(row, at) =>
      && call.id in s.issued && row == s.issued[call.id] && row.hash == call.hash
      && row.purpose == call.purpose && at < row.expiresAt
    case Consumed(row, at) =>
      && call.id in s.issued && row == s.issued[call.id] && row.hash == call.hash
      && row.purpose == call.purpose && at < row.expiresAt
      && (call.id in s.tokens ==> s.tokens[call.id].usedAt == Some(at))
    case Refused => true
  }

  ghost predicate Inv(s: State) {
    && RowsTruthful(s)
    && (forall c :: c in s.calls ==> CallTruthful(s, s.calls[c]))
    && (forall c, d :: Succeeded(s, c) && Succeeded(s, d) && s.calls[c].id == s.calls[d].id ==> c == d)
  }

  /** Every used row was consumed by some call, at the recorded time. */
  ghost predicate UsedByACall(s: State) {
    forall id :: id in s.tokens && s.tokens[id].usedAt.Some? ==>
      exists c :: Succeeded(s, c) && s.calls[c].id == id && s.calls[c].phase.at == s.tokens[id].usedAt.value
  }

  lemma StepKeepsCall(s: State, a: Action, c: nat)
    requires Inv(s) && Enabled(s, a) && c in Next(s, a).calls
    ensures CallTruthful(Next(s, a), Next(s, a).calls[c])
  {
    assert c in s.calls ==> CallTruthful(s, s.calls[c]);
    if a.MarkUsed? && c != a.call && Succeeded(s, c) {
      assert CallTruthful(s, s.calls[a.call]);
    }
  }

  /** A call marking an unused row is the first one to consume it. */
  lemma StepKeepsApart(s: State, a: Action, c: nat, d: nat)
    requires Inv(s) && Enabled(s, a) && c != d
    requires Succeeded(Next(s, a), c) && Succeeded(Next(s, a), d)
    ensures Next(s, a).calls[c].id != Next(s, a).calls[d].id
  {
    if Succeeded(s, c) {
      assert CallTruthful(s, s.calls[c]);
    }
    if Succeeded(s, d) {
      assert CallTruthful(s, s.calls[d]);
    }
  }

  lemma StepKeepsInv(s: State, a: Action)
    requires Inv(s) && Enabled(s, a)
    ensures Inv(Next(s, a))
  {
    var t := Next(s, a);
    forall c | c in t.calls ensures CallTruthful(t, t.calls[c]) {
      StepKeepsCall(s, a, c);
    }
    forall c, d | Succeeded(t, c) && Succeeded(t, d) && c != d ensures t.calls[c].id != t.calls[d].id {
      StepKeepsApart(s, a, c, d);
    }
    hide CallTruthful;
  }

  lemma StepKeepsUsed(s: State, a: Action)
    requires UsedByACall(s) && Enabled(s, a)
    ensures UsedByACall(Next(s, a))
  {
    var t := Next(s, a);
    forall id | id in t.tokens && t.tokens[id].usedAt.Some?
      ensures exists c :: Succeeded(t, c) && t.calls[c].id == id && t.calls[c].phase.at == t.tokens[id].usedAt.value
    {
      if id in s.tokens && s.tokens[id].usedAt.Some? {
        var c :| Succeeded(s, c) && s.calls[c].id == id && s.calls[c].phase.at == s.tokens[id].usedAt.value;
        assert Succeeded(t, c);
      } else {
        assert Succeeded(t, a.call);
      }
    }
  }

  lemma {:induction false} RunKeepsInv(s: State, actions: seq<Action>)
    requires Inv(s) && UsedByACall(s) && Possible(s, actions)
    ensures Inv(Run(s, actions)) && UsedByACall(Run(s, actions))
    decreases |actions|
  {
    hide Inv, UsedByACall, Enabled, Next;
    if actions != [] {
      StepKeepsInv(s, actions[0]);
      StepKeepsUsed(s, actions[0]);
      RunKeepsInv(Next(s, actions[0]), actions[1..]);
    }
  }

  // ---------------------------------------------------------------- the theorems

  const START: State := State(map[], map[], map[], 0)

  /** In every interleaving at most one call consumes a token; it asked for the purpose the token
      was issued for, with the token's own hash, and checked the clock before expiry. */
  lemma SingleUse(actions: seq<Action>, c: nat, d: nat)
    requires Possible(START, actions)
    requires Succeeded(Run(START, actions), c) && Succeeded(Run(START, actions), d)
    ensures var s := Run(START, actions);
      && (s.calls[c].id == s.calls[d].id ==> c == d)
      && s.calls[c].id in s.issued
      && var row := s.issued[s.calls[c].id];
      row.hash == s.calls[c].hash && row.purpose == s.calls[c].purpose && s.calls[c].phase.at < row.expiresAt
  {
    RunKeepsInv(START, actions);
    assert CallTruthful(Run(START, actions), Run(START, actions).calls[c]);
  }

  /** An issued row that is gone. */
  predicate Gone(s: State, id: Id) {
    id in s.issued && id !in s.tokens
  }

  lemma GoneStays(s: State, a: Action, id: Id, c: nat)
    requires Inv(s) && Enabled(s, a) && Gone(s, id)
    ensures Gone(Next(s, a), id)
    ensures Succeeded(Next(s, a), c) && Next(s, a).calls[c].id == id ==> Succeeded(s, c) && s.calls[c].id == id
  {
    hide CallTruthful;
  }

  /** A gone row stays gone, and no further call consumes it. */
  lemma {:induction false} GoneForGood(s: State, actions: seq<Action>, id: Id, c: nat)
    requires Inv(s) && Possible(s, actions) && Gone(s, id)
    ensures Gone(Run(s, actions), id)
    ensures Succeeded(Run(s, actions), c) && Run(s, actions).calls[c].id == id ==>
      Succeeded(s, c) && s.calls[c].id == id
    decreases |actions|
  {
    if actions != [] {
      var t := Next(s, actions[0]);
      hide Inv, Gone, Next, Enabled;
      StepKeepsInv(s, actions[0]);
      GoneStays(s, actions[0], id, c);
      GoneForGood(t, actions[1..], id, c);
    }
  }

  /** Once RevokeTokens has deleted the rows, a call that had not marked a token of that purpose and subject
      by then never succeeds with it, however far it had come. */
  lemma RevokedTokensAreNotConsumed(s: State, purpose: Purpose, subject: Id, actions: seq<Action>, c: nat, id: Id)
    requires Inv(s) && id in s.issued && Matches(s.issued[id], purpose, subject)
    requires Possible(Next(s, DeleteBySubject(purpose, subject)), actions)
    requires !Succeeded(s, c)
    ensures var end := Run(Next(s, DeleteBySubject(purpose, subject)), actions);
      !(Succeeded(end, c) && end.calls[c].id == id)
  {
    var t := Next(s, DeleteBySubject(purpose, subject));
    StepKeepsInv(s, DeleteBySubject(purpose, subject));
    GoneForGood(t, actions, id, c);
  }

  /** The race the conditional update decides: two calls pass their checks on the same row, the
      first to mark it succeeds and the second is refused. */
  lemma SecondMarkerIsRefused(s: State, c: nat, d: nat)
    requires Inv(s) && c != d && c in s.calls && d in s.calls
    requires s.calls[c].phase.Checked? && s.calls[d].phase.Checked? && s.calls[c].id == s.calls[d].id
    requires s.calls[c].id in s.tokens && s.tokens[s.calls[c].id].usedAt.None?
    ensures var t := Run(s, [MarkUsed(c), MarkUsed(d)]);
      Succeeded(t, c) && d in t.calls && t.calls[d].phase == Refused
  {
    var actions := [MarkUsed(c), MarkUsed(d)];
    assert actions[1..] == [MarkUsed(d)];
    assert [MarkUsed(d)][1..] == [];
    var t := Next(s, MarkUsed(c));
    assert Run(s, actions) == Run(t, [MarkUsed(d)]) == Run(Next(t, MarkUsed(d)), []);
  }

  /** A call with no step in between succeeds exactly when the row it finds has its purpose, is
      unused and has not expired. */
  lemma AloneItSucceeds(s: State, c: nat, purpose: Purpose, id: Id)
    requires c !in s.calls && id in s.tokens
    ensures var lookup := Lookup(c, purpose, s.tokens[id].row.hash, Some(id));
      var t := Run(s, [lookup, Check(c), MarkUsed(c)]);
      && Enabled(s, lookup)
      && (Succeeded(t, c) <==>
          s.tokens[id].row.purpose == purpose && s.tokens[id].usedAt.None? && s.now < s.tokens[id].row.expiresAt)
      && (Succeeded(t, c) ==> t.tokens == s.tokens[id := s.tokens[id].(usedAt := Some(s.now))])
      && (!Succeeded(t, c) ==> t.tokens == s.tokens)
  {
    var lookup := Lookup(c, purpose, s.tokens[id].row.hash, Some(id));
    var t := Next(s, lookup);
    var u := Next(t, Check(c));
    ThreeSteps(s, lookup, Check(c), MarkUsed(c));
    assert t.calls[c].phase == Looked(s.tokens[id]);
  }

  lemma ThreeSteps(s: State, a: Action, b: Action, c: Action)
    ensures Run(s, [a, b, c]) == Next(Next(Next(s, a), b), c)
  {
    hide Next;
    assert [a, b, c][1..] == [b, c] && [b, c][1..] == [c] && [c][1..] == [];
    assert Run(Next(Next(s, a), b), [c]) == Run(Next(Next(Next(s, a), b), c), []);
  }
}
