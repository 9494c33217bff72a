/** Revoking stored sessions one at a time (adapter/bridge/bridge.go:402-429), and what that
    adds up to. */
module Revoking {
  import opened Wrappers
  import opened Identifiers
  import opened Core
  import opened CoreLaws

  type Sessions = map<Hash, Session>

  /** Sessions().Revoke: an update of the rows with this id. */
  function RevokeStored(sessions: Sessions, id: Id, now: int): Sessions {
    map h | h in sessions :: if sessions[h].id == id then sessions[h].(revokedAt := Some(now)) else sessions[h]
  }

  lemma RevokedById(sessions: Sessions, next: Id, h: Hash, now: int)
    requires SessionsOk(sessions, next) && h in sessions
    ensures RevokeStored(sessions, sessions[h].id, now) == Mark(sessions, {h}, now)
  {
  }

  lemma OneWithId(sessions: Sessions, next: Id, h: Hash)
    requires SessionsOk(sessions, next) && h in sessions
    ensures WithId(sessions, sessions[h].id) == if sessions[h].revokedAt.None? then {h} else {}
  {
  }

  lemma MarkNone(sessions: Sessions, now: int)
    ensures Mark(sessions, {}, now) == sessions
  {
  }

  lemma MarkMore(sessions: Sessions, next: Id, keys: set<Hash>, h: Hash, now: int)
    requires SessionsOk(sessions, next) && h in sessions
    ensures RevokeStored(Mark(sessions, keys, now), sessions[h].id, now) == Mark(sessions, keys + {h}, now)
  {
  }

  lemma NobodySpared(sessions: Sessions, next: Id, user: Id)
    requires SessionsOk(sessions, next)
    ensures forall h :: h in ActiveOf(sessions, user, 0) <==>
      h in sessions && sessions[h].userId == user && sessions[h].revokedAt.None?
  {
  }

  lemma NoneMarked<T>(refused: set<T>)
    ensures {} - refused == {}
  {
  }

  lemma OneMoreMarked<T>(seen: set<T>, refused: set<T>, h: T)
    ensures (seen + {h}) - refused == if h in refused then seen - refused else (seen - refused) + {h}
  {
  }

  lemma RefusedAmong(all: set<Hash>, keys: set<Hash>, broken: set<Call>)
    requires keys <= all
    ensures keys - Refused(all, broken) == keys - Refused(keys, broken)
    ensures keys * Refused(all, broken) == Refused(keys, broken)
  {
  }

  /** Revokes every active session of a user, skipping updates that are refused; lists them all
      as revoked. */
  method RevokeEvery(sessions: Sessions, next: Id, user: Id, now: int, refused: set<Hash>)
    returns (after: Sessions, revoked: seq<Hash>)
    requires SessionsOk(sessions, next)
    ensures after == Mark(sessions, ActiveOf(sessions, user, 0) - refused, now)
    ensures forall h :: h in revoked <==> h in ActiveOf(sessions, user, 0)
  {
    ghost var keys := ActiveOf(sessions, user, 0);
    ghost var seen: set<Hash> := {};
    var all := set h | h in sessions && sessions[h].userId == user;
    after, revoked := sessions, [];
    MarkNone(sessions, now);
    NoneMarked(refused);
    NobodySpared(sessions, next, user);
    hide SessionsOk;
    while all != {}
      invariant all <= sessions.Keys && seen !! all && seen <= keys <= all + seen
      invariant forall h :: h in all ==> sessions[h].userId == user
      invariant forall h :: h in revoked <==> h in seen
      invariant after == Mark(sessions, seen - refused, now)
      decreases all
    {
      var h :| h in all;
      all := all - {h};
      var s := after[h];
      if s.revokedAt.None? {
        OneMoreMarked(seen, refused, h);
        if h !in refused {
          after := RevokeStored(after, s.id, now);
          MarkMore(sessions, next, seen - refused, h, now);
        }
        revoked := revoked + [h];
        seen := seen + {h};
      }
    }
    assert seen == keys;
  }

  /** Revokes every active session of a user but one; the first refused update ends it. */
  method RevokeOthers(sessions: Sessions, next: Id, user: Id, except: Id, now: int, refused: set<Hash>)
    returns (after: Sessions, revoked: seq<Hash>, ok: bool)
    requires SessionsOk(sessions, next)
    ensures ok <==> ActiveOf(sessions, user, except) * refused == {}
    ensures ok ==> after == Mark(sessions, ActiveOf(sessions, user, except), now)
    ensures ok ==> forall h :: h in revoked <==> h in ActiveOf(sessions, user, except)
  {
    ghost var keys := ActiveOf(sessions, user, except);
    ghost var seen: set<Hash> := {};
    var all := set h | h in sessions && sessions[h].userId == user;
    after, revoked := sessions, [];
    MarkNone(sessions, now);
    hide SessionsOk;
    while all != {}
      invariant all <= sessions.Keys && seen !! all && seen <= keys <= all + seen
      invariant forall h :: h in all ==> sessions[h].userId == user
      invariant forall h :: h in revoked <==> h in seen
      invariant seen !! refused
      invariant after == Mark(sessions, seen, now)
      decreases all
    {
      var h :| h in all;
      all := all - {h};
      var s := after[h];
      if s.id == except || s.revokedAt.Some? {
        continue;
      }
      if h in refused {
        assert h in keys * refused;
        return after, revoked, false;
      }
      after := RevokeStored(after, s.id, now);
      MarkMore(sessions, next, seen, h, now);
      revoked := revoked + [h];
      seen := seen + {h};
    }
    assert seen == keys;
    ok := true;
  }
}
