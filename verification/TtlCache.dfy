/** The in-memory cache with lazy expiration (cache/memory/memory.go). */
module TtlCache {
  import opened Wrappers

  datatype Entry<V> = Value(value: V, expiresAt: int) | Counter(count: int, expiresAt: int)

  /** What a reader at time t can see. */
  function LiveAt<K, V>(entries: map<K, Entry<V>>, t: int): map<K, Entry<V>> {
    map k | k in entries && t < entries[k].expiresAt :: entries[k]
  }

  /** What an entry is read as. */
  function Decoded<V>(e: Entry<V>, decode: int -> Option<V>): Option<V> {
    match e
    case Value(v, _) => Some(v)
    case Counter(n, _) => decode(n)
  }

  /** int64 arithmetic. */
  function Wrap64(n: int): int {
    (n + 0x8000_0000_0000_0000) % 0x1_0000_0000_0000_0000 - 0x8000_0000_0000_0000
  }

  /** The entry after an increment: a counter keeps its window, anything else starts a new one. */
  function Incremented<V>(e: Option<Entry<V>>, now: int, delta: int, ttl: int): Entry<V> {
    match e
    case Some(Counter(count, expiresAt)) => Counter(Wrap64(count + delta), expiresAt)
    case _ => Counter(Wrap64(delta), now + ttl)
  }

  class Cache<K(==), V> {
    var entries: map<K, Entry<V>>

    constructor ()
      ensures entries == map[]
    {
      entries := map[];
    }

    /** Looks an entry up, deleting it if it has expired. No reader, now or later, can tell. */
    method Live(now: int, key: K) returns (e: Option<Entry<V>>)
      modifies this
      ensures e == if key in LiveAt(old(entries), now) then Some(old(entries)[key]) else None
      ensures entries == if key in old(entries) && e.None? then old(entries) - {key} else old(entries)
      ensures forall t :: now <= t ==> LiveAt(entries, t) == LiveAt(old(entries), t)
    {
      if key !in entries {
        return None;
      }
      if entries[key].expiresAt <= now {
        entries := entries - {key};
        return None;
      }
      e := Some(entries[key]);
    }

    /** A hit is a live value, or a live counter that decodes into the target: into a number, say,
        and not into a record. */
    method Get(now: int, key: K, decode: int -> Option<V>) returns (v: Option<V>)
      modifies this
      ensures v == if key in LiveAt(old(entries), now) then Decoded(old(entries)[key], decode) else None
      ensures v.Some? ==> entries == old(entries)
      ensures forall t :: now <= t ==> LiveAt(entries, t) == LiveAt(old(entries), t)
      ensures forall k :: k in entries ==> k in old(entries) && entries[k] == old(entries)[k]
    {
      var e := Live(now, key);
      v := if e.Some? then Decoded(e.value, decode) else None;
    }

    method Set(now: int, key: K, value: V, ttl: int) returns (ok: bool)
      modifies this
      ensures ok == (ttl > 0)
      ensures entries == if ok then old(entries)[key := Value(value, now + ttl)] else old(entries)
      ensures ok ==> forall t :: key in LiveAt(entries, t) <==> t < now + ttl
      ensures forall k, t :: k != key ==>
        (k in LiveAt(entries, t) <==> k in old(entries) && t < old(entries)[k].expiresAt)
    {
      ok := ttl > 0;
      if ok {
        entries := entries[key := Value(value, now + ttl)];
      }
    }

    method Delete(key: K)
      modifies this
      ensures entries == old(entries) - {key}
    {
      entries := entries - {key};
    }

    method Increment(now: int, key: K, delta: int, ttl: int) returns (n: Option<int>)
      modifies this
      ensures n.Some? <==> ttl > 0
      ensures n.None? ==> entries == old(entries)
      ensures n.Some? ==>
        var before := if key in LiveAt(old(entries), now) then Some(old(entries)[key]) else None;
        && entries == old(entries)[key := Incremented(before, now, delta, ttl)]
        && n.value == entries[key].count
      ensures n.Some? ==>
        var kept := key in old(entries) && now < old(entries)[key].expiresAt && old(entries)[key].Counter?;
        && n.value == Wrap64(if kept then old(entries)[key].count + delta else delta)
        && forall t :: key in LiveAt(entries, t) <==> t < if kept then old(entries)[key].expiresAt else now + ttl
    {
      if ttl <= 0 {
        return None;
      }
      var e := Live(now, key);
      var next := if e.Some? && e.value.Counter? then Counter(Wrap64(e.value.count + delta), e.value.expiresAt)
        else Counter(Wrap64(delta), now + ttl);
      entries := entries[key := next];
      n := Some(next.count);
    }
  }

  // ---------------------------------------------------------------- fixed windows

  /** The entry of one key after increments at the given times. */
  function Series<V>(e: Option<Entry<V>>, hits: seq<(int, int)>, ttl: int): Option<Entry<V>> {
    if hits == [] then e
    else
      var (at, delta) := hits[|hits| - 1];
      var before := Series(e, hits[..|hits| - 1], ttl);
      var live := if before.Some? && at < before.value.expiresAt then before else None;
      Some(Incremented(live, at, delta, ttl))
  }

  function Sum(hits: seq<(int, int)>): int {
    if hits == [] then 0 else Sum(hits[..|hits| - 1]) + hits[|hits| - 1].1
  }

  /** Two's complement: the 64-bit integer that differs by a multiple of 2^64. */
  lemma Wrap64Exactly(n: int)
    ensures -0x8000_0000_0000_0000 <= Wrap64(n) < 0x8000_0000_0000_0000
    ensures (Wrap64(n) - n) % 0x1_0000_0000_0000_0000 == 0
    ensures -0x8000_0000_0000_0000 <= n < 0x8000_0000_0000_0000 ==> Wrap64(n) == n
  {
  }

  /** What is stored is live until it expires and not after. */
  lemma LiveExactlyUntil<K, V>(entries: map<K, Entry<V>>, t: int, k: K)
    ensures k in LiveAt(entries, t) <==> k in entries && t < entries[k].expiresAt
    ensures k in LiveAt(entries, t) ==> LiveAt(entries, t)[k] == entries[k]
  {
  }

  lemma WrapAdds(a: int, b: int)
    ensures Wrap64(Wrap64(a) + b) == Wrap64(a + b)
  {
  }

  /** Increments within one window add up and do not extend it: it ends ttl after the first. */
  lemma {:induction false} FixedWindow<V>(hits: seq<(int, int)>, ttl: int)
    requires hits != [] && ttl > 0
    requires forall i :: 0 <= i < |hits| ==> hits[i].0 < hits[0].0 + ttl
    ensures Series<V>(None, hits, ttl) == Some(Counter(Wrap64(Sum(hits)), hits[0].0 + ttl))
  {
    var rest := hits[..|hits| - 1];
    if rest == [] {
      assert Series<V>(None, rest, ttl) == None && Sum(rest) == 0;
    } else {
      FixedWindow<V>(rest, ttl);
      WrapAdds(Sum(rest), hits[|hits| - 1].1);
    }
  }

  /** The first increment at or after the end of a window starts the next one. */
  lemma NextWindow<V>(hits: seq<(int, int)>, at: int, delta: int, ttl: int)
    requires hits != [] && ttl > 0 && hits[0].0 + ttl <= at
    requires forall i :: 0 <= i < |hits| ==> hits[i].0 < hits[0].0 + ttl
    ensures Series<V>(None, hits + [(at, delta)], ttl) == Some(Counter(Wrap64(delta), at + ttl))
  {
    var all := hits + [(at, delta)];
    assert all[..|all| - 1] == hits;
    FixedWindow<V>(hits, ttl);
  }
}
