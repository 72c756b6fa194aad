/**
 * The cache maintenance service: per-user eviction over the three caches,
 * clearing every key under the service's prefix, and statistics that sort the
 * scanned keys into the three caches by substring tests.
 */
module CacheManagement {
  import opened Common
  import opened Text
  import opened RedisCache

  /** The three key sets `getCacheStats` reports. */
  datatype CacheStats = CacheStats(
    userCacheKeys: set<string>,
    userWithCardsCacheKeys: set<string>,
    userCardsCacheKeys: set<string>)
  {
    /** `getTotalKeys`: the sizes of the three sets added up. */
    function TotalKeys(): nat {
      |userCacheKeys| + |userWithCardsCacheKeys| + |userCardsCacheKeys|
    }
  }

  /**
   * The set a scanned key goes into, following the if/else-if chain of
   * `getCacheStats`: a key matching the `users` test but containing
   * `usersWithCards` goes nowhere, and so does a key matching no test.
   */
  function Classify(key: string): Option<CacheName> {
    if Contains(key, "::users::") || Contains(key, ":users::") then
      if !Contains(key, "usersWithCards") then Some(Users) else None
    else if Contains(key, "::usersWithCards::") || Contains(key, ":usersWithCards::") then Some(UsersWithCards)
    else if Contains(key, "::userCards::") || Contains(key, ":userCards::") then Some(UserCards)
    else None
  }

  /** The statistics of a set of scanned keys. */
  function StatsOf(keys: set<string>): (stats: CacheStats)
    ensures stats.userCacheKeys <= keys && stats.userWithCardsCacheKeys <= keys && stats.userCardsCacheKeys <= keys
    ensures stats.userCacheKeys !! stats.userWithCardsCacheKeys
    ensures stats.userCacheKeys !! stats.userCardsCacheKeys
    ensures stats.userWithCardsCacheKeys !! stats.userCardsCacheKeys
  {
    CacheStats(Bucket(keys, Users), Bucket(keys, UsersWithCards), Bucket(keys, UserCards))
  }

  /** The keys of `keys` classified under `c`. */
  function Bucket(keys: set<string>, c: CacheName): set<string> {
    set k | k in keys && Classify(k) == Some(c)
  }

  /** Classifying one more key adds it to its own bucket only. */
  lemma BucketAdd(keys: set<string>, key: string, c: CacheName)
    ensures Bucket(keys + {key}, c) == if Classify(key) == Some(c) then Bucket(keys, c) + {key} else Bucket(keys, c)
  {
  }

  /** No key naming `usersWithCards` is ever counted as a `users` key. */
  lemma UsersSetExcludesUsersWithCards(keys: set<string>, k: string)
    requires k in StatsOf(keys).userCacheKeys
    ensures !Contains(k, "usersWithCards")
  {
  }

  /** The total never exceeds the number of scanned keys: each key is counted at most once. */
  lemma TotalKeysAtMostScanned(keys: set<string>)
    ensures StatsOf(keys).TotalKeys() <= |keys|
  {
    var s := StatsOf(keys);
    var union := s.userCacheKeys + s.userWithCardsCacheKeys + s.userCardsCacheKeys;
    assert |s.userCacheKeys + s.userWithCardsCacheKeys| == |s.userCacheKeys| + |s.userWithCardsCacheKeys|;
    assert |union| == s.TotalKeys();
    SubsetSize(union, keys);
  }

  // The three key prefixes a cache key starts with, before its decimal id.
  const UsersKeyPrefix: string := "user-service:users::"
  const UsersWithCardsKeyPrefix: string := "user-service:usersWithCards::"
  const UserCardsKeyPrefix: string := "user-service:userCards::"

  lemma KeyPrefixes(c: CacheName, id: UserId)
    ensures c == Users ==> RedisKey(c, id) == UsersKeyPrefix + NatToString(id)
    ensures c == UsersWithCards ==> RedisKey(c, id) == UsersWithCardsKeyPrefix + NatToString(id)
    ensures c == UserCards ==> RedisKey(c, id) == UserCardsKeyPrefix + NatToString(id)
  {
  }

  lemma UsersPrefixFacts()
    ensures !Contains(UsersKeyPrefix, "usersWithCards")
  {
    AbsentUnlessAt(UsersKeyPrefix, "usersWithCards", 0, 4);
  }

  lemma UsersWithCardsPrefixFacts()
    ensures !Contains(UsersWithCardsKeyPrefix, "::users::")
    ensures !Contains(UsersWithCardsKeyPrefix, ":users::")
  {
    AbsentUnlessAt(UsersWithCardsKeyPrefix, "::users::", 12, 1);
    AbsentUnlessAt(UsersWithCardsKeyPrefix, ":users::", 12, 6);
  }

  lemma UserCardsPrefixFacts()
    ensures !Contains(UserCardsKeyPrefix, "::users::")
    ensures !Contains(UserCardsKeyPrefix, ":users::")
    ensures !Contains(UserCardsKeyPrefix, "::usersWithCards::")
    ensures !Contains(UserCardsKeyPrefix, ":usersWithCards::")
  {
    AbsentUnlessAt(UserCardsKeyPrefix, "::users::", 12, 1);
    AbsentUnlessAt(UserCardsKeyPrefix, ":users::", 12, 5);
    AbsentUnlessAt(UserCardsKeyPrefix, "::usersWithCards::", 12, 1);
    AbsentUnlessAt(UserCardsKeyPrefix, ":usersWithCards::", 12, 5);
  }

  /** Every key the cache manager writes is counted under its own cache. */
  lemma ClassifyRedisKey(c: CacheName, id: UserId)
    ensures Classify(RedisKey(c, id)) == Some(c)
  {
    var d := NatToString(id);
    var key := RedisKey(c, id);
    KeyPrefixes(c, id);
    match c
    case Users =>
      ContainsAt(key, ":users::", 12);
      UsersPrefixFacts();
      if Contains(key, "usersWithCards") {
        ContainsBeforeDigits(UsersKeyPrefix, d, "usersWithCards");
      }
    case UsersWithCards =>
      UsersWithCardsPrefixFacts();
      if Contains(key, "::users::") {
        ContainsBeforeDigits(UsersWithCardsKeyPrefix, d, "::users::");
      }
      if Contains(key, ":users::") {
        ContainsBeforeDigits(UsersWithCardsKeyPrefix, d, ":users::");
      }
      ContainsAt(key, ":usersWithCards::", 12);
    case UserCards =>
      UserCardsPrefixFacts();
      if Contains(key, "::users::") {
        ContainsBeforeDigits(UserCardsKeyPrefix, d, "::users::");
      }
      if Contains(key, ":users::") {
        ContainsBeforeDigits(UserCardsKeyPrefix, d, ":users::");
      }
      if Contains(key, "::usersWithCards::") {
        ContainsBeforeDigits(UserCardsKeyPrefix, d, "::usersWithCards::");
      }
      if Contains(key, ":usersWithCards::") {
        ContainsBeforeDigits(UserCardsKeyPrefix, d, ":usersWithCards::");
      }
      ContainsAt(key, ":userCards::", 12);
  }

  /** The keys of `entries` a scan for `prefix` reports. */
  function KeysWithPrefix<V>(entries: map<string, V>, prefix: string): set<string> {
    set k | k in entries && StartsWith(k, prefix)
  }

  class CacheService {
    const redis: Redis

    constructor (redis: Redis)
      ensures this.redis == redis
    {
      this.redis := redis;
    }

    /**
     * `evictUserCaches`: evicts entry `userId` of `users`, `usersWithCards`
     * and `userCards`, if present; every other entry stays.
     */
    method EvictUserCaches(userId: UserId)
      modifies redis
      ensures redis.entries == old(redis.entries) - UserKeys(AllCaches, userId)
    {
      redis.EvictIfPresent(RedisKey(Users, userId));
      redis.EvictIfPresent(RedisKey(UsersWithCards, userId));
      redis.EvictIfPresent(RedisKey(UserCards, userId));
      assert UserKeys(AllCaches, userId) ==
        {RedisKey(Users, userId), RedisKey(UsersWithCards, userId), RedisKey(UserCards, userId)};
    }

    /** `scanKeys`: adds to `keys` every key the cursor yields for `prefix`. */
    method ScanKeys(prefix: string, keys: set<string>) returns (found: set<string>)
      ensures found == keys + KeysWithPrefix(redis.entries, prefix)
    {
      var cursor := redis.Scan(prefix);
      found := keys;
      var i := 0;
      while i < |cursor|
        invariant 0 <= i <= |cursor|
        invariant found == keys + set j | 0 <= j < i :: cursor[j]
      {
        found := found + {cursor[i]};
        i := i + 1;
      }
      assert (set j | 0 <= j < |cursor| :: cursor[j]) == KeysWithPrefix(redis.entries, prefix) by {
        forall k | k in KeysWithPrefix(redis.entries, prefix)
          ensures k in set j | 0 <= j < |cursor| :: cursor[j]
        {
          var j :| 0 <= j < |cursor| && cursor[j] == k;
        }
      }
    }

    /** `evictAllUserCaches`: deletes exactly the keys under the service's prefix. */
    method EvictAllUserCaches()
      modifies redis
      ensures redis.entries == old(redis.entries) - KeysWithPrefix(old(redis.entries), KeyPrefix)
      ensures forall k :: k in redis.entries <==> k in old(redis.entries) && !StartsWith(k, KeyPrefix)
    {
      var allKeys := ScanKeys(KeyPrefix, {});
      if allKeys != {} {
        var _ := redis.Delete(allKeys);
      }
    }

    /** `getCacheStats`: scans the prefix, then sorts each key by the substring tests. */
    method GetCacheStats() returns (stats: CacheStats)
      ensures stats == StatsOf(KeysWithPrefix(redis.entries, KeyPrefix))
    {
      var allKeys := ScanKeys(KeyPrefix, {});
      var userKeys: set<string> := {};
      var userWithCardsKeys: set<string> := {};
      var userCardsKeys: set<string> := {};
      var remaining := allKeys;
      ghost var processed: set<string> := {};
      while remaining != {}
        invariant processed + remaining == allKeys && processed !! remaining
        invariant userKeys == Bucket(processed, Users)
        invariant userWithCardsKeys == Bucket(processed, UsersWithCards)
        invariant userCardsKeys == Bucket(processed, UserCards)
        decreases |remaining|
      {
        var key :| key in remaining;
        BucketAdd(processed, key, Users);
        BucketAdd(processed, key, UsersWithCards);
        BucketAdd(processed, key, UserCards);
        if Contains(key, "::users::") || Contains(key, ":users::") {
          if !Contains(key, "usersWithCards") {
            userKeys := userKeys + {key};
          }
        } else if Contains(key, "::usersWithCards::") || Contains(key, ":usersWithCards::") {
          userWithCardsKeys := userWithCardsKeys + {key};
        } else if Contains(key, "::userCards::") || Contains(key, ":userCards::") {
          userCardsKeys := userCardsKeys + {key};
        }
        processed := processed + {key};
        remaining := remaining - {key};
      }
      stats := CacheStats(userKeys, userWithCardsKeys, userCardsKeys);
    }
  }

  /** Per-user eviction is idempotent: evicting twice leaves what evicting once left. */
  lemma EvictUserCachesIdempotent(entries: map<string, CachedValue>, userId: UserId)
    ensures (entries - UserKeys(AllCaches, userId)) - UserKeys(AllCaches, userId) == entries - UserKeys(AllCaches, userId)
  {
  }

  /** Per-user eviction touches no entry of another user. */
  lemma EvictUserCachesSparesOthers(entries: map<string, CachedValue>, userId: UserId, c: CacheName, other: UserId)
    requires other != userId && RedisKey(c, other) in entries
    ensures RedisKey(c, other) in entries - UserKeys(AllCaches, userId)
  {
    if RedisKey(c, other) in UserKeys(AllCaches, userId) {
      var d :| d in AllCaches && RedisKey(c, other) == RedisKey(d, userId);
      RedisKeyInjective(c, other, d, userId);
    }
  }

  /** After clearing, the statistics are empty. */
  lemma StatsAfterClear(entries: map<string, CachedValue>)
    ensures StatsOf(KeysWithPrefix(entries - KeysWithPrefix(entries, KeyPrefix), KeyPrefix)) == CacheStats({}, {}, {})
  {
    assert KeysWithPrefix(entries - KeysWithPrefix(entries, KeyPrefix), KeyPrefix) == {};
  }
}
