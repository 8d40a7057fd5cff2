/** The versioned response cache in Redis (app/cache/redis.py). */
module CacheStore {
  import opened Wrappers
  import opened Decimal
  import opened Strings

  /** SHA-256 and Python's `strip().lower()` are not modelled. */
  datatype Hashing = Hashing(digest: string -> string, normalise: string -> string)

  /** The keys the cache uses: the counters by version key, the responses by cache key. */
  datatype Store<V> = Store(versions: map<string, nat>, responses: map<string, V>)

  function VersionKey(tenant: string): string { "rag:cv:" + tenant }

  function RawKey(h: Hashing, tenant: string, query: string): string {
    tenant + ([':'] + h.normalise(query))
  }

  function CacheKey(h: Hashing, version: nat, tenant: string, query: string): string {
    "rag:query:" + (Digits(version) + ([':'] + h.digest(RawKey(h, tenant, query))))
  }

  function Version<V>(s: Store<V>, tenant: string): nat {
    if VersionKey(tenant) in s.versions then s.versions[VersionKey(tenant)] else 0
  }

  function Bumped<V>(s: Store<V>, tenant: string): Store<V> {
    s.(versions := s.versions[VersionKey(tenant) := Version(s, tenant) + 1])
  }

  function Lookup<V>(s: Store<V>, key: string): Option<V> {
    if key in s.responses then Some(s.responses[key]) else None
  }

  function Put<V>(s: Store<V>, key: string, value: V): Store<V> {
    s.(responses := s.responses[key := value])
  }

  // ---------------------------------------------------------------- keys

  ghost predicate CollisionFree(h: Hashing) {
    forall x, y :: h.digest(x) == h.digest(y) ==> x == y
  }

  /** Two cache keys are equal exactly when version, tenant and normalised query are. */
  lemma KeysInjective(h: Hashing, v: nat, tenant: string, query: string, w: nat, other: string, text: string)
    requires CollisionFree(h) && ':' !in tenant && ':' !in other
    ensures CacheKey(h, v, tenant, query) == CacheKey(h, w, other, text) <==>
      v == w && tenant == other && h.normalise(query) == h.normalise(text)
  {
    if CacheKey(h, v, tenant, query) == CacheKey(h, w, other, text) {
      var x, y := h.digest(RawKey(h, tenant, query)), h.digest(RawKey(h, other, text));
      SamePrefix("rag:query:", Digits(v) + ([':'] + x), Digits(w) + ([':'] + y));
      DigitsShape(v);
      DigitsShape(w);
      CutOnce(Digits(v), x, Digits(w), y, ':');
      DigitsInjective(v, w);
      CutOnce(tenant, h.normalise(query), other, h.normalise(text), ':');
    }
  }

  /** Invalidating one tenant changes no lookup of another. */
  lemma BumpIsLocal<V>(s: Store<V>, h: Hashing, tenant: string, other: string, query: string)
    requires tenant != other
    ensures Version(Bumped(s, tenant), other) == Version(s, other)
    ensures var s' := Bumped(s, tenant);
      Lookup(s', CacheKey(h, Version(s', other), other, query)) ==
        Lookup(s, CacheKey(h, Version(s, other), other, query))
  {
    if VersionKey(tenant) == VersionKey(other) {
      SamePrefix("rag:cv:", tenant, other);
    }
  }

  /** A failed version read yields 0.  A response stored after one is found again only by those
      that read version 0, and changes the lookups of its own tenant and normalised query only. */
  lemma FaultyWrite<V>(s: Store<V>, h: Hashing, tenant: string, query: string, value: V,
                       other: string, text: string, version: nat)
    requires CollisionFree(h) && ':' !in tenant && ':' !in other
    ensures Lookup(Put(s, CacheKey(h, 0, tenant, query), value), CacheKey(h, version, other, text)) ==
      if version == 0 && tenant == other && h.normalise(query) == h.normalise(text) then Some(value)
      else Lookup(s, CacheKey(h, version, other, text))
  {
    KeysInjective(h, 0, tenant, query, version, other, text);
  }

  /** The keys of embeddings and of the rate limiter, which share the key space. */
  function EmbeddingKey(h: Hashing, text: string): string { "emb:" + h.digest(text) }

  function LimiterKey(tenant: string, limit: string): string { "rl:" + (tenant + ([':'] + limit)) }

  /** Counters, responses, embeddings and limiter windows never share a key, so that they can
      be taken as separate maps; counters of distinct tenants are distinct. */
  lemma KeySpaces(h: Hashing, version: nat, tenant: string, query: string, other: string, text: string, limit: string)
    ensures "rag:cv:" <= VersionKey(tenant) && "rag:query:" <= CacheKey(h, version, tenant, query)
    ensures "emb:" <= EmbeddingKey(h, text) && "rl:" <= LimiterKey(tenant, limit)
    ensures VersionKey(other) != CacheKey(h, version, tenant, query)
    ensures EmbeddingKey(h, text) != VersionKey(other) && EmbeddingKey(h, text) != CacheKey(h, version, tenant, query)
    ensures LimiterKey(other, limit) != VersionKey(tenant) && LimiterKey(other, limit) != EmbeddingKey(h, text)
    ensures LimiterKey(other, limit) != CacheKey(h, version, tenant, query)
    ensures VersionKey(tenant) == VersionKey(other) <==> tenant == other
  {
    assert VersionKey(other)[4] == 'c' && CacheKey(h, version, tenant, query)[4] == 'q';
    assert EmbeddingKey(h, text)[0] == 'e' && LimiterKey(other, limit)[0] == 'r';
    assert VersionKey(tenant)[0] == 'r' && VersionKey(other)[0] == 'r' && CacheKey(h, version, tenant, query)[0] == 'r';
    assert LimiterKey(other, limit)[1] == 'l' && VersionKey(tenant)[1] == 'a';
    assert CacheKey(h, version, tenant, query)[1] == 'a';
    if VersionKey(tenant) == VersionKey(other) {
      SamePrefix("rag:cv:", tenant, other);
    }
  }

  // ---------------------------------------------------------------- time to live

  const CACHE_TTL_SECONDS := 3600.0

  /** What Redis holds under a key, and until when. */
  datatype Entry<V> = Entry(value: V, expires: real)

  /** What a client finds at a time. */
  function Present<V>(s: Store<Entry<V>>, now: real): Store<V> {
    Store(s.versions, map k | k in s.responses && now < s.responses[k].expires :: s.responses[k].value)
  }

  function PutFor<V>(s: Store<Entry<V>>, key: string, value: V, now: real): Store<Entry<V>> {
    Put(s, key, Entry(value, now + CACHE_TTL_SECONDS))
  }

  /** A response written at `now` is there for an hour, whatever was under its key before, and
      is gone from then on; no other key is affected. */
  lemma PresentForAnHour<V>(s: Store<Entry<V>>, key: string, value: V, now: real, later: real)
    requires now <= later
    ensures Present(PutFor(s, key, value, now), later) ==
      if later < now + 3600.0 then Put(Present(s, later), key, value)
      else Present(s, later).(responses := Present(s, later).responses - {key})
  {
    var after, before := Present(PutFor(s, key, value, now), later), Present(s, later);
    assert forall k :: k != key ==> (k in after.responses <==> k in before.responses);
    assert key in after.responses <==> later < now + 3600.0;
  }

  /** A response is served to its own tenant and normalised query for an hour. */
  lemma SetThenGet<V>(s: Store<Entry<V>>, h: Hashing, tenant: string, query: string, text: string,
                      value: V, now: real, later: real)
    requires h.normalise(query) == h.normalise(text) && now <= later < now + 3600.0
    ensures var s' := PutFor(s, CacheKey(h, Version(s, tenant), tenant, query), value, now);
      Lookup(Present(s', later), CacheKey(h, Version(s', tenant), tenant, text)) == Some(value)
  {
    PresentForAnHour(s, CacheKey(h, Version(s, tenant), tenant, query), value, now, later);
  }

  /** After an invalidation a response stored before it is not found: the lookup finds what was
      under the key of the next version already. */
  lemma SetInvalidateGet<V>(s: Store<Entry<V>>, h: Hashing, tenant: string, query: string, text: string,
                            value: V, now: real, later: real)
    requires CollisionFree(h) && ':' !in tenant && now <= later
    ensures var s' := Bumped(PutFor(s, CacheKey(h, Version(s, tenant), tenant, query), value, now), tenant);
      Lookup(Present(s', later), CacheKey(h, Version(s', tenant), tenant, text)) ==
        Lookup(Present(s, later), CacheKey(h, Version(s, tenant) + 1, tenant, text))
  {
    var version := Version(s, tenant);
    KeysInjective(h, version, tenant, query, version + 1, tenant, text);
    PresentForAnHour(s, CacheKey(h, version, tenant, query), value, now, later);
  }

  // ---------------------------------------------------------------- the client

  class Cache<V> {
    const h: Hashing
    var versions: map<string, nat>
    var responses: map<string, Entry<V>>

    constructor (h: Hashing)
      ensures this.h == h && State() == Store(map[], map[])
    {
      this.h := h;
      versions, responses := map[], map[];
    }

    function State(): Store<Entry<V>>
      reads this
    {
      Store(versions, responses)
    }

    /** `up` says of a Redis operation whether it succeeds. */
    method GetTenantCacheVersion(tenant: string, up: bool) returns (version: nat)
      ensures version == if up then Version(State(), tenant) else 0
    {
      version := 0;
      if up && VersionKey(tenant) in versions {
        version := versions[VersionKey(tenant)];
      }
    }

    method InvalidateTenantQueryCache(tenant: string, up: bool)
      modifies this
      ensures State() == if up then Bumped(old(State()), tenant) else old(State())
    {
      if up {
        var version := GetTenantCacheVersion(tenant, true);
        versions := versions[VersionKey(tenant) := version + 1];
      }
    }

    method GetCachedResponse(tenant: string, query: string, versionUp: bool, up: bool, now: real)
      returns (response: Option<V>)
      ensures response ==
        if !up then None
        else
          var version := if versionUp then Version(State(), tenant) else 0;
          Lookup(Present(State(), now), CacheKey(h, version, tenant, query))
    {
      var version := GetTenantCacheVersion(tenant, versionUp);
      var key := CacheKey(h, version, tenant, query);
      response := None;
      if up && key in responses && now < responses[key].expires {
        response := Some(responses[key].value);
      }
    }

    method SetCachedResponse(tenant: string, query: string, response: V, versionUp: bool, up: bool, now: real)
      modifies this
      ensures State() ==
        if !up then old(State())
        else
          var version := if versionUp then Version(old(State()), tenant) else 0;
          PutFor(old(State()), CacheKey(h, version, tenant, query), response, now)
    {
      var version := GetTenantCacheVersion(tenant, versionUp);
      if up {
        var key := CacheKey(h, version, tenant, query);
        responses := responses[key := Entry(response, now + CACHE_TTL_SECONDS)];
      }
    }
  }
}
