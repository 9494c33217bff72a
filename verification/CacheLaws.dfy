/** How cached entries relate to the Store, and what a change of the Store does to them. */
module CacheLaws {
  import opened Wrappers
  import opened Identifiers
  import opened Core
  import opened CoreLaws
  import opened TtlCache
  import opened Revoking

  type SessionEntries = map<Hash, Entry<Session>>
  type UserEntries = map<Id, Entry<User>>

  /** The stored session is the cached one, or was revoked at most ttl before the entry ends. */
  predicate StaleWithin(stored: Session, cached: Session, until: int, ttl: int) {
    stored == cached
    || (stored.revokedAt.Some? && stored == cached.(revokedAt := stored.revokedAt)
        && until <= stored.revokedAt.value + ttl)
  }

  predicate EntryBounded(ttl: int, sessions: Sessions, next: Id, h: Hash, e: Entry<Session>, now: int) {
    && e.Value? && e.value.hash == h && h.token < next && e.value.revokedAt.None?
    && e.expiresAt <= e.value.expiresAt && e.expiresAt <= now + ttl
    && if h in sessions then StaleWithin(sessions[h], e.value, e.expiresAt, ttl) else e.expiresAt <= now
  }

  /** Even with a failing cache: no entry outlives its session, or the revocation of its session
      by more than ttl. */
  predicate Bounded(ttl: int, sessions: Sessions, next: Id, entries: SessionEntries, now: int) {
    forall h :: h in entries ==> EntryBounded(ttl, sessions, next, h, entries[h], now)
  }

  /** Live entries equal the stored sessions. */
  predicate SessionsAgree(sessions: Sessions, entries: SessionEntries, now: int) {
    forall h :: h in entries && now < entries[h].expiresAt ==>
      entries[h].Value? && h in sessions && sessions[h] == entries[h].value
  }

  predicate UsersAgree(users: map<Id, User>, entries: UserEntries, now: int) {
    forall u :: u in entries && now < entries[u].expiresAt ==>
      entries[u].Value? && u in users && users[u] == entries[u].value
  }

  ghost predicate Fewer<K, V>(entries: map<K, Entry<V>>, before: map<K, Entry<V>>) {
    forall k :: k in entries ==> k in before && entries[k] == before[k]
  }

  lemma BoundedEvolves(ttl: int, before: Sessions, after: Sessions, next: Id, later: Id, entries: SessionEntries,
                       now: int)
    requires Bounded(ttl, before, next, entries, now) && SessionsEvolve(before, after, next, now) && next <= later
    ensures Bounded(ttl, after, later, entries, now)
  {
    forall h | h in entries ensures EntryBounded(ttl, after, later, h, entries[h], now) {
      assert EntryBounded(ttl, before, next, h, entries[h], now);
    }
  }

  /** Entries of sessions that have changed are gone: the rest still agrees. */
  lemma AgreeEvolves(ttl: int, before: Sessions, after: Sessions, next: Id, was: SessionEntries,
                     entries: SessionEntries, now: int)
    requires Bounded(ttl, before, next, was, now) && SessionsAgree(before, was, now)
    requires SessionsEvolve(before, after, next, now) && Fewer(entries, was)
    requires forall h :: h in entries && h in before && h in after ==> after[h] == before[h]
    ensures SessionsAgree(after, entries, now)
  {
    forall h | h in entries && now < entries[h].expiresAt
      ensures entries[h].Value? && h in after && after[h] == entries[h].value
    {
      assert EntryBounded(ttl, before, next, h, was[h], now);
    }
  }

  /** What a hit says about the session named by a token: it has not expired, and if it was
      revoked in the Store, that was less than ttl ago. */
  predicate NotLongRevoked(ttl: int, st: Store, token: Id, now: int) {
    && Hash(token) in st.sessions && now < st.sessions[Hash(token)].expiresAt
    && (st.sessions[Hash(token)].revokedAt.Some? ==> now < st.sessions[Hash(token)].revokedAt.value + ttl)
  }

  lemma HitsAreNotLongRevoked(ttl: int, st: Store, entries: SessionEntries, token: Id, now: int)
    requires Bounded(ttl, st.sessions, st.next, entries, now)
    requires Hash(token) in entries && now < entries[Hash(token)].expiresAt
    ensures entries[Hash(token)].Value? && entries[Hash(token)].value.Valid(now)
    ensures NotLongRevoked(ttl, st, token, now)
  {
    assert EntryBounded(ttl, st.sessions, st.next, Hash(token), entries[Hash(token)], now);
  }

  lemma FewerKeeps(ttl: int, sessions: Sessions, next: Id, was: SessionEntries, entries: SessionEntries, now: int)
    requires Fewer(entries, was)
    ensures Bounded(ttl, sessions, next, was, now) ==> Bounded(ttl, sessions, next, entries, now)
    ensures SessionsAgree(sessions, was, now) ==> SessionsAgree(sessions, entries, now)
  {
    hide EntryBounded;
  }

  /** Caching a valid stored session for at most ttl and at most its remaining life. */
  lemma CachingKeeps(ttl: int, sessions: Sessions, next: Id, was: SessionEntries, h: Hash, life: int, now: int)
    requires SessionsOk(sessions, next) && h in sessions && sessions[h].revokedAt.None?
    requires life <= ttl && now + life <= sessions[h].expiresAt
    ensures var entries := was[h := Value(sessions[h], now + life)];
      && (Bounded(ttl, sessions, next, was, now) ==> Bounded(ttl, sessions, next, entries, now))
      && (SessionsAgree(sessions, was, now) ==> SessionsAgree(sessions, entries, now))
  {
    var entries := was[h := Value(sessions[h], now + life)];
    assert EntryBounded(ttl, sessions, next, h, entries[h], now);
    hide EntryBounded;
  }
}
