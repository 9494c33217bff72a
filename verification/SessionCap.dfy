/** The concurrent-session limit (plugins/multisession/service.go:180-330, 454-521), enforced
    inside the transaction that creates a session (session.go:39-80). */
module SessionCap {
  import opened Wrappers
  import opened Identifiers
  import opened Core
  import opened CoreLaws
  import opened Revoking

  function ValidOf(sessions: Sessions, user: Id, now: int): set<Hash> {
    set h | h in sessions && sessions[h].userId == user && sessions[h].Valid(now)
  }

  ghost predicate Capped(sessions: Sessions, max: int, now: int) {
    forall user: Id :: |ValidOf(sessions, user, now)| <= max
  }

  /** No evicted session is newer than a session that is spared. */
  predicate Oldest(sessions: Sessions, active: set<Hash>, evicted: set<Hash>) {
    evicted <= active <= sessions.Keys
    && forall e, s :: e in evicted && s in active - evicted ==> sessions[e].createdAt <= sessions[s].createdAt
  }

  // ---------------------------------------------------------------- counting

  lemma SmallerSet<T>(a: set<T>, b: set<T>)
    requires a <= b
    ensures |a| <= |b|
  {
    assert b == a + (b - a);
  }

  /** Fewer valid sessions for everyone: the cap stays. */
  lemma FewerStaysCapped(before: Sessions, after: Sessions, max: int, now: int, later: int)
    requires Capped(before, max, now) && forall user :: ValidOf(after, user, later) <= ValidOf(before, user, now)
    ensures Capped(after, max, later)
  {
    forall user: Id ensures |ValidOf(after, user, later)| <= max {
      SmallerSet(ValidOf(after, user, later), ValidOf(before, user, now));
    }
  }

  lemma TimePasses(sessions: Sessions, max: int, now: int, later: int)
    requires Capped(sessions, max, now) && now <= later
    ensures Capped(sessions, max, later)
  {
    FewerStaysCapped(sessions, sessions, max, now, later);
  }

  lemma MarkStaysCapped(sessions: Sessions, keys: set<Hash>, max: int, now: int)
    requires Capped(sessions, max, now)
    ensures Capped(Mark(sessions, keys, now), max, now)
  {
    FewerStaysCapped(sessions, Mark(sessions, keys, now), max, now, now);
  }

  lemma MarkStaysOk(sessions: Sessions, next: Id, keys: set<Hash>, now: int)
    requires SessionsOk(sessions, next)
    ensures SessionsOk(Mark(sessions, keys, now), next)
  {
  }

  lemma NewStaysOk(sessions: Sessions, next: Id, s: Session)
    requires SessionsOk(sessions, next) && s.id == next && 0 < next && s.hash == Hash(next + 1)
    ensures s.hash !in sessions && SessionsOk(sessions[s.hash := s], next + 2)
  {
  }

  /** The valid sessions after evicting some and adding one. */
  lemma ValidAfterCreation(sessions: Sessions, evicted: set<Hash>, s: Session, user: Id, now: int)
    requires s.hash !in sessions
    ensures ValidOf(Mark(sessions, evicted, now)[s.hash := s], user, now)
      == (ValidOf(sessions, user, now) - evicted) + if s.userId == user && s.Valid(now) then {s.hash} else {}
  {
  }

  /** Making room for one session before adding it keeps everyone within the limit, and leaves a
      user who had reached it exactly at the limit. */
  lemma CreationStaysCapped(sessions: Sessions, evicted: set<Hash>, s: Session, max: int, now: int)
    requires Capped(sessions, max, now) && s.hash !in sessions
    requires evicted <= ValidOf(sessions, s.userId, now) && |ValidOf(sessions, s.userId, now)| - |evicted| < max
    ensures var after := Mark(sessions, evicted, now)[s.hash := s];
      && Capped(after, max, now)
      && (s.Valid(now) ==> |ValidOf(after, s.userId, now)| == |ValidOf(sessions, s.userId, now)| - |evicted| + 1)
  {
    var after := Mark(sessions, evicted, now)[s.hash := s];
    forall user: Id ensures |ValidOf(after, user, now)| <= max {
      ValidAfterCreation(sessions, evicted, s, user, now);
      hide ValidOf;
      if user != s.userId {
        SmallerSet(ValidOf(after, user, now), ValidOf(sessions, user, now));
      }
    }
    ValidAfterCreation(sessions, evicted, s, s.userId, now);
  }

  datatype Moment = Moment(sessions: Sessions, now: int)

  ghost predicate Creates(a: Moment, b: Moment, evicted: set<Hash>, s: Session, max: int) {
    && s.hash !in a.sessions && b == Moment(Mark(a.sessions, evicted, a.now)[s.hash := s], a.now)
    && evicted <= ValidOf(a.sessions, s.userId, a.now) && |ValidOf(a.sessions, s.userId, a.now)| - |evicted| < max
  }

  /** Everything else only takes validity away: revocations, deletions, the passing of time. */
  ghost predicate TakesAway(a: Moment, b: Moment) {
    forall user :: ValidOf(b.sessions, user, b.now) <= ValidOf(a.sessions, user, a.now)
  }

  /** In every run from within the limit, every state is within the limit. */
  lemma {:induction false} CappedThroughout(run: seq<Moment>, evicted: seq<set<Hash>>, created: seq<Session>, max: int)
    requires |run| == |evicted| + 1 == |created| + 1 && Capped(run[0].sessions, max, run[0].now)
    requires forall i, j :: 0 <= i < |evicted| && j == i + 1 ==>
      Creates(run[i], run[j], evicted[i], created[i], max) || TakesAway(run[i], run[j])
    ensures forall i :: 0 <= i < |run| ==> Capped(run[i].sessions, max, run[i].now)
    decreases |run|
  {
    hide Creates, TakesAway, Capped;
    if |run| > 1 {
      var n := |evicted| - 1;
      CappedThroughout(run[..n + 1], evicted[..n], created[..n], max);
      OneStepCapped(run[n], run[n + 1], evicted[n], created[n], max);
    }
  }

  lemma OneStepCapped(a: Moment, b: Moment, evicted: set<Hash>, s: Session, max: int)
    requires Capped(a.sessions, max, a.now) && (Creates(a, b, evicted, s, max) || TakesAway(a, b))
    ensures Capped(b.sessions, max, b.now)
  {
    hide Capped, ValidOf;
    if Creates(a, b, evicted, s, max) {
      CreationStaysCapped(a.sessions, evicted, s, max, a.now);
    } else {
      FewerStaysCapped(a.sessions, b.sessions, max, a.now, b.now);
    }
  }

  // ---------------------------------------------------------------- sorting

  predicate Distinct<T(==)>(s: seq<T>) {
    forall i, j :: 0 <= i < j < |s| ==> s[i] != s[j]
  }

  predicate OldestFirst(sessions: Sessions, s: seq<Hash>) {
    (forall h :: h in s ==> h in sessions)
    && forall i, j :: 0 <= i < j < |s| ==> sessions[s[i]].createdAt <= sessions[s[j]].createdAt
  }

  lemma InsertedInOrder(sessions: Sessions, sorted: seq<Hash>, h: Hash, p: nat)
    requires OldestFirst(sessions, sorted) && Distinct(sorted) && h !in sorted && h in sessions && p <= |sorted|
    requires p > 0 ==> sessions[sorted[p - 1]].createdAt <= sessions[h].createdAt
    requires forall k :: p <= k < |sorted| ==> sessions[sorted[k]].createdAt > sessions[h].createdAt
    ensures var longer := sorted[..p] + [h] + sorted[p..];
      OldestFirst(sessions, longer) && Distinct(longer) && forall x :: x in longer <==> x == h || x in sorted
  {
    var longer := sorted[..p] + [h] + sorted[p..];
    forall i, j | 0 <= i < j < |longer|
      ensures longer[i] != longer[j] && sessions[longer[i]].createdAt <= sessions[longer[j]].createdAt
    {
      if i == p {
        assert longer[j] == sorted[j - 1];
      } else if j == p {
        assert longer[i] == sorted[i];
        assert i < p - 1 ==> sessions[sorted[i]].createdAt <= sessions[sorted[p - 1]].createdAt;
      }
    }
  }

  /** Sorts by creation; the order of sessions created at the same time is not specified. */
  method SortOldestFirst(sessions: Sessions, list: seq<Hash>) returns (sorted: seq<Hash>)
    requires Distinct(list) && forall h :: h in list ==> h in sessions
    ensures OldestFirst(sessions, sorted) && Distinct(sorted) && |sorted| == |list|
    ensures forall h :: h in sorted <==> h in list
  {
    sorted := [];
    for i := 0 to |list|
      invariant OldestFirst(sessions, sorted) && Distinct(sorted) && |sorted| == i
      invariant forall h :: h in sorted <==> h in list[..i]
    {
      var p := i;
      while p > 0 && sessions[sorted[p - 1]].createdAt > sessions[list[i]].createdAt
        invariant 0 <= p <= i
        invariant forall k :: p <= k < i ==> sessions[sorted[k]].createdAt > sessions[list[i]].createdAt
      {
        p := p - 1;
      }
      hide OldestFirst;
      assert list[i] !in list[..i];
      InsertedInOrder(sessions, sorted, list[i], p);
      sorted := sorted[..p] + [list[i]] + sorted[p..];
      assert list[..i + 1] == list[..i] + [list[i]];
    }
  }

  function Elements<T(==)>(s: seq<T>): set<T> {
    set x | x in s
  }

  lemma ElementsAdd<T>(s: seq<T>, x: T)
    ensures Elements(s + [x]) == Elements(s) + {x}
  {
  }

  lemma {:induction false} DistinctSize<T>(s: seq<T>)
    requires Distinct(s)
    ensures |Elements(s)| == |s|
  {
    if s != [] {
      var rest, last := s[..|s| - 1], s[|s| - 1];
      DistinctSize(rest);
      ElementsAdd(rest, last);
      assert s == rest + [last];
    }
  }

  /** A prefix of the sorted list is a set of oldest sessions. */
  lemma PrefixIsOldest(sessions: Sessions, sorted: seq<Hash>, n: nat)
    requires OldestFirst(sessions, sorted) && Distinct(sorted) && n <= |sorted|
    ensures Oldest(sessions, Elements(sorted), Elements(sorted[..n])) && |Elements(sorted[..n])| == n
  {
    DistinctSize(sorted[..n]);
  }

  /** The unrevoked sessions of the user are revoked now, but for one and those spared; all others
      are as before. */
  predicate RevokedBut(before: Sessions, after: Sessions, user: Id, except: Id, spared: set<Hash>, now: int) {
    && after.Keys == before.Keys
    && forall h :: h in before ==>
      var s := before[h];
      if s.userId == user && s.id != except && s.revokedAt == None && h !in spared then
        after[h] == s.(revokedAt := Some(now))
      else after[h] == s
  }

  /** What evicting a set of oldest sessions means, session by session. */
  lemma SpareTheYoung(sessions: Sessions, user: Id, evicted: set<Hash>, now: int)
    requires Oldest(sessions, ValidOf(sessions, user, now), evicted)
    ensures forall e :: e in evicted ==>
      && e in sessions && sessions[e].userId == user && sessions[e].revokedAt == None && now < sessions[e].expiresAt
    ensures forall e, h ::
      (e in evicted && h in sessions && h !in evicted && sessions[h].userId == user && sessions[h].revokedAt == None
       && now < sessions[h].expiresAt) ==> sessions[e].createdAt <= sessions[h].createdAt
  {
  }

  // ---------------------------------------------------------------- the service

  datatype Policy = RevokeOldest | Reject

  datatype Outcome = Created(session: Session) | NoUser | LimitReached | StoreFailed

  class Service {
    const max: int
    const policy: Policy
    const ttl: int
    const users: set<Id>
    var sessions: Sessions
    var next: Id
    var now: int

    constructor (max: int, policy: Policy, ttl: int, users: set<Id>, start: int)
      ensures Valid() && sessions == map[] && this.max == max && this.policy == policy && this.ttl == ttl
        && now == start
    {
      this.max, this.policy, this.ttl, this.users, sessions, next, now := max, policy, ttl, users, map[], 1, start;
    }

    /** In every reachable state every user is within the limit, if there is one. */
    ghost predicate Valid()
      reads this
    {
      SessionsOk(sessions, next) && 0 < next && (max > 0 ==> Capped(sessions, max, now))
    }

    /** The hook: false when it fails. An error can leave some sessions already revoked. */
    method BeforeSessionCreate(user: Id, broken: set<Hash>) returns (error: Option<Outcome>, ghost evicted: set<Hash>)
      requires SessionsOk(sessions, next)
      modifies this`sessions
      ensures error == None ==>
        && sessions == Mark(old(sessions), evicted, now) && evicted <= ValidOf(old(sessions), user, now)
        && evicted !! broken
        && Oldest(old(sessions), ValidOf(old(sessions), user, now), evicted)
        && |evicted| == (if max > 0 && |ValidOf(old(sessions), user, now)| >= max
                         then |ValidOf(old(sessions), user, now)| - max + 1 else 0)
      ensures error == None || error == Some(LimitReached) || error == Some(StoreFailed)
      ensures error == Some(LimitReached) <==> policy == Reject && 0 < max <= |ValidOf(old(sessions), user, now)|
      ensures error == Some(StoreFailed) ==> exists h :: h in ValidOf(old(sessions), user, now) && h in broken
    {
      evicted := {};
      MarkNone(sessions, now);
      if max <= 0 {
        return None, evicted;
      }
      ghost var before, valid := sessions, ValidOf(sessions, user, now);
      var active := ListActive(user);
      if |active| < max {
        return None, evicted;
      }
      if policy == Reject {
        return Some(LimitReached), evicted;
      }
      var sorted := SortOldestFirst(sessions, active);
      assert Elements(sorted) == valid;
      var excess := |sorted| - max + 1;
      hide SessionsOk;
      for i := 0 to excess
        invariant sessions == Mark(before, Elements(sorted[..i]), now) && Elements(sorted[..i]) !! broken
      {
        var oldest := sorted[i];
        if oldest in broken {
          assert oldest in valid;
          return Some(StoreFailed), evicted;
        }
        sessions := RevokeStored(sessions, sessions[oldest].id, now);
        MarkMore(before, next, Elements(sorted[..i]), oldest, now);
        assert Elements(sorted[..i + 1]) == Elements(sorted[..i]) + {oldest};
      }
      evicted := Elements(sorted[..excess]);
      PrefixIsOldest(before, sorted, excess);
      error := None;
    }

    /** The valid sessions of a user, in no particular order. */
    method ListActive(user: Id) returns (active: seq<Hash>)
      ensures Distinct(active) && Elements(active) == ValidOf(sessions, user, now)
      ensures |active| == |ValidOf(sessions, user, now)| && forall h :: h in active ==> h in sessions
    {
      active := [];
      var all := set h | h in sessions && sessions[h].userId == user;
      while all != {}
        invariant all <= sessions.Keys && Distinct(active)
        invariant forall h :: h in all ==> sessions[h].userId == user && h !in active
        invariant forall h :: h in active ==> h in ValidOf(sessions, user, now)
        invariant forall h :: h in ValidOf(sessions, user, now) ==> h in all || h in active
        decreases all
      {
        var h :| h in all;
        all := all - {h};
        if sessions[h].Valid(now) {
          active := active + [h];
        }
      }
      assert Elements(active) == ValidOf(sessions, user, now);
      DistinctSize(active);
    }

    /** A failed creation leaves the sessions as they were; a successful one evicts just enough
        of the oldest, and adds one. */
    method CreateSession(user: Id, broken: set<Hash>) returns (outcome: Outcome, ghost evicted: set<Hash>)
      requires Valid()
      modifies this
      ensures Valid() && now == old(now)
      ensures !outcome.Created? ==> sessions == old(sessions)
      ensures outcome.Created? ==>
        && outcome.session.userId == user && outcome.session.hash !in old(sessions)
        && outcome.session.createdAt == now && outcome.session.expiresAt == now + ttl
        && outcome.session.revokedAt == None
        && evicted !! broken
        && sessions == Mark(old(sessions), evicted, now)[outcome.session.hash := outcome.session]
        && Oldest(old(sessions), ValidOf(old(sessions), user, now), evicted)
        && |evicted| == (if max > 0 && |ValidOf(old(sessions), user, now)| >= max
                         then |ValidOf(old(sessions), user, now)| - max + 1 else 0)
      ensures outcome.Created? ==>
        && (forall e :: e in evicted ==>
              && e in old(sessions) && old(sessions)[e].userId == user && old(sessions)[e].revokedAt == None
              && now < old(sessions)[e].expiresAt && sessions[e] == old(sessions)[e].(revokedAt := Some(now)))
        && (forall h :: h in old(sessions) && h !in evicted ==> sessions[h] == old(sessions)[h])
        && (forall e, h ::
              (e in evicted && h in old(sessions) && h !in evicted && old(sessions)[h].userId == user
               && old(sessions)[h].revokedAt == None && now < old(sessions)[h].expiresAt) ==>
                old(sessions)[e].createdAt <= old(sessions)[h].createdAt)
      ensures outcome == LimitReached <==>
        user in users && policy == Reject && 0 < max <= |ValidOf(old(sessions), user, now)|
      ensures outcome == NoUser <==> user !in users
    {
      hide Capped, Oldest, SessionsOk, ValidOf;
      evicted := {};
      if user !in users {
        return NoUser, evicted;
      }
      var snapshot := sessions;
      var id, token := next, next + 1;
      var s := Session(id, user, Hash(token), now, now + ttl, None);
      var error;
      error, evicted := BeforeSessionCreate(user, broken);
      if error.Some? {
        sessions := snapshot;
        return error.value, {};
      }
      MarkStaysOk(snapshot, next, evicted, now);
      NewStaysOk(snapshot, next, s);
      NewStaysOk(sessions, next, s);
      if max > 0 {
        CreationStaysCapped(snapshot, evicted, s, max, now);
      }
      SpareTheYoung(snapshot, user, evicted, now);
      sessions, next := sessions[s.hash := s], next + 2;
      outcome := Created(s);
    }

    /** All or nothing: the current session must be the user's and not revoked. */
    method RevokeOtherSessions(user: Id, current: Id, broken: set<Hash>) returns (done: bool)
      requires Valid()
      modifies this`sessions
      ensures Valid()
      ensures sessions ==
        if done then Mark(old(sessions), ActiveOf(old(sessions), user, current), now) else old(sessions)
      ensures done ==> RevokedBut(old(sessions), sessions, user, current, {}, now)
      ensures done <==>
        && user != 0 && current != 0
        && (exists h :: h in old(sessions)
              && old(sessions)[h].id == current && old(sessions)[h].userId == user
              && old(sessions)[h].revokedAt == None)
        && ActiveOf(old(sessions), user, current) * broken == {}
    {
      if user == 0 || current == 0 {
        return false;
      }
      if c :| c in sessions && sessions[c].id == current {
        if sessions[c].userId != user || sessions[c].revokedAt.Some? {
          return false;
        }
        if max > 0 {
          MarkStaysCapped(sessions, ActiveOf(sessions, user, current), max, now);
        }
        MarkStaysOk(sessions, next, ActiveOf(sessions, user, current), now);
        var after, revoked, ok := RevokeOthers(sessions, next, user, current, now, broken);
        if ok {
          sessions := after;
        }
        return ok;
      }
      done := false;
    }

    /** Updates that fail are ignored. */
    method RevokeAllSessions(user: Id, broken: set<Hash>) returns (done: bool)
      requires Valid()
      modifies this`sessions
      ensures Valid() && done == (user != 0)
      ensures sessions ==
        if done then Mark(old(sessions), ActiveOf(old(sessions), user, 0) - broken, now) else old(sessions)
      ensures done ==> RevokedBut(old(sessions), sessions, user, 0, broken, now)
    {
      if user == 0 {
        return false;
      }
      if max > 0 {
        MarkStaysCapped(sessions, ActiveOf(sessions, user, 0) - broken, max, now);
      }
      MarkStaysOk(sessions, next, ActiveOf(sessions, user, 0) - broken, now);
      var after, revoked := RevokeEvery(sessions, next, user, now, broken);
      sessions := after;
      done := true;
    }

    /** Expired sessions are deleted. */
    method DeleteExpired()
      requires Valid()
      modifies this`sessions
      ensures Valid() && sessions == map h | h in old(sessions) && old(sessions)[h].expiresAt >= now :: old(sessions)[h]
    {
      var kept := map h | h in sessions && sessions[h].expiresAt >= now :: sessions[h];
      if max > 0 {
        FewerStaysCapped(sessions, kept, max, now, now);
      }
      sessions := kept;
    }

    method Wait(pause: nat)
      requires Valid()
      modifies this`now
      ensures Valid() && now == old(now) + pause
    {
      if max > 0 {
        TimePasses(sessions, max, now, now + pause);
      }
      now := now + pause;
    }
  }
}
