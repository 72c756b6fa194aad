/**
 * The Redis server as the cache manager uses it: string keys of the form
 * `user-service:<cache name>::<id>` mapped to the cached return values.
 */
module RedisCache {
  import opened Common
  import opened Text
  import opened Responses

  /** The three caches the services name in their annotations. */
  datatype CacheName = Users | UsersWithCards | UserCards

  function Name(c: CacheName): string {
    match c
    case Users => "users"
    case UsersWithCards => "usersWithCards"
    case UserCards => "userCards"
  }

  /** The prefix the cache configuration puts before every cache name. */
  const KeyPrefix: string := "user-service:"

  /** The Redis key of entry `id` of cache `c`: prefix, cache name, `::`, then the id in decimal. */
  function RedisKey(c: CacheName, id: UserId): (key: string)
    ensures StartsWith(key, KeyPrefix)
    ensures |key| == |KeyPrefix| + |Name(c)| + 2 + |NatToString(id)|
  {
    KeyPrefix + Name(c) + "::" + NatToString(id)
  }

  /** Distinct entries never share a key: the key determines both the cache and the id. */
  lemma RedisKeyInjective(c: CacheName, id: UserId, d: CacheName, e: UserId)
    requires RedisKey(c, id) == RedisKey(d, e)
    ensures c == d && id == e
  {
    var s := RedisKey(c, id);
    KeyShape(c, id);
    KeyShape(d, e);
    assert c == d;
    var n := |KeyPrefix| + |Name(c)| + 2;
    assert s[n..] == NatToString(id);
    assert RedisKey(d, e)[n..] == NatToString(e);
    NatToStringInjective(id, e);
  }

  /** Characters 17 and 18 of a key tell the three caches apart. */
  lemma KeyShape(c: CacheName, id: UserId)
    ensures |RedisKey(c, id)| > 18
    ensures c == Users ==> RedisKey(c, id)[17] == 's' && RedisKey(c, id)[18] == ':'
    ensures c == UsersWithCards ==> RedisKey(c, id)[17] == 's' && RedisKey(c, id)[18] == 'W'
    ensures c == UserCards ==> RedisKey(c, id)[17] == 'C'
  {
  }

  /** The keys of user `id` in the caches `names`. */
  function UserKeys(names: set<CacheName>, id: UserId): (keys: set<string>)
    ensures forall c :: c in names ==> RedisKey(c, id) in keys
    ensures forall k :: k in keys ==> exists c :: c in names && k == RedisKey(c, id)
  {
    set c | c in names :: RedisKey(c, id)
  }

  /** The three caches of one user: the entries a user write evicts. */
  const AllCaches: set<CacheName> := {Users, UsersWithCards, UserCards}

  /** `AllCaches` names every cache. */
  lemma AllCachesNamesEvery(c: CacheName)
    ensures c in AllCaches
  {
    match c
    case Users =>
    case UsersWithCards =>
    case UserCards =>
  }

  /** What a cached method returned. */
  datatype CachedValue =
    | UserValue(user: UserResponse)
    | UserWithCardsValue(userWithCards: UserWithCardsResponse)
    | CardListValue(cards: seq<PaymentCardResponse>)

  class Redis {
    var entries: map<string, CachedValue>

    constructor ()
      ensures entries == map[]
    {
      entries := map[];
    }

    /** `GET`. */
    method Get(key: string) returns (v: Option<CachedValue>)
      ensures v.Some? <==> key in entries
      ensures v.Some? ==> v.value == entries[key]
    {
      if key in entries {
        v := Some(entries[key]);
      } else {
        v := None;
      }
    }

    /** `SET`. */
    method Put(key: string, v: CachedValue)
      modifies this
      ensures entries == old(entries)[key := v]
    {
      entries := entries[key := v];
    }

    /** `DEL` of one key; a missing key is left missing. */
    method EvictIfPresent(key: string)
      modifies this
      ensures entries == old(entries) - {key}
    {
      entries := entries - {key};
    }

    /** The `@CacheEvict` entries of a `@Caching` annotation: entry `id` of each cache in `names`. */
    method EvictFromCaches(names: set<CacheName>, id: UserId)
      modifies this
      ensures entries == old(entries) - UserKeys(names, id)
    {
      entries := entries - UserKeys(names, id);
    }

    /** `DEL` of several keys, answering how many existed. */
    method Delete(keys: set<string>) returns (n: nat)
      modifies this
      ensures entries == old(entries) - keys
      ensures n == |keys * old(entries).Keys|
    {
      n := |keys * entries.Keys|;
      entries := entries - keys;
    }

    /**
     * `SCAN ... MATCH prefix*`: a cursor over every key beginning with
     * `prefix`, each once, in an order of the server's choosing.
     */
    method Scan(prefix: string) returns (cursor: seq<string>)
      ensures forall k :: k in cursor <==> k in entries && StartsWith(k, prefix)
      ensures forall i, j :: 0 <= i < j < |cursor| ==> cursor[i] != cursor[j]
    {
      cursor := [];
      var remaining := set k | k in entries && StartsWith(k, prefix);
      while remaining != {}
        invariant forall k :: k in cursor || k in remaining <==> k in entries && StartsWith(k, prefix)
        invariant forall k :: k in cursor ==> k !in remaining
        invariant forall i, j :: 0 <= i < j < |cursor| ==> cursor[i] != cursor[j]
        decreases |remaining|
      {
        var k :| k in remaining;
        cursor := cursor + [k];
        remaining := remaining - {k};
      }
    }
  }
}
