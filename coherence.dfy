/**
 * Cache coherence: every entry the services put under a key
 * `user-service:<cache>::<id>` equals what the cached method would compute
 * from the current tables, and only stored users have entries. Each write
 * path keeps this through the entries it evicts.
 */
module CacheCoherence {
  import opened Common
  import opened Tables
  import opened Entities
  import opened Responses
  import opened RedisCache
  import UserMapper
  import PaymentCardMapper
  import PaymentCardRepository

  /** The cards of user `id` in `findByUserId` order, each mapped by `toDTO`. */
  function CardViews(cards: Table<PaymentCard>, id: UserId): (views: seq<PaymentCardResponse>)
    ensures |views| == |PaymentCardRepository.FindByUserId(cards, id)|
    ensures forall i :: 0 <= i < |views| ==>
      views[i] == PaymentCardMapper.ToDto(PaymentCardRepository.FindByUserId(cards, id)[i])
  {
    var owned := PaymentCardRepository.FindByUserId(cards, id);
    seq(|owned|, i requires 0 <= i < |owned| => PaymentCardMapper.ToDto(owned[i]))
  }

  /** The body `getUserWithCardsById` assembles: the user's columns and its card list. */
  function UserWithCardsView(u: User, cardViews: seq<PaymentCardResponse>): (r: UserWithCardsResponse)
    ensures r.id == u.id && r.name == u.name && r.surname == u.surname && r.birthDate == u.birthDate
    ensures r.email == u.email && r.active == u.active
    ensures r.createdAt == u.createdAt && r.updatedAt == u.updatedAt
    ensures r.paymentCards == cardViews
  {
    UserWithCardsResponse(u.id, u.name, u.surname, u.birthDate, u.email, u.active, u.createdAt, u.updatedAt, cardViews)
  }

  /** What the method cached under `c` returns for stored user `id`. */
  function Expected(c: CacheName, id: UserId, users: Table<User>, cards: Table<PaymentCard>): CachedValue
    requires id in users.rows
  {
    match c
    case Users => UserValue(UserMapper.ToDto(users.rows[id]))
    case UsersWithCards => UserWithCardsValue(UserWithCardsView(users.rows[id], CardViews(cards, id)))
    case UserCards => CardListValue(CardViews(cards, id))
  }

  ghost predicate Coherent(users: Table<User>, cards: Table<PaymentCard>, entries: map<string, CachedValue>) {
    forall c: CacheName, id: UserId :: RedisKey(c, id) in entries ==>
      id in users.rows && entries[RedisKey(c, id)] == Expected(c, id, users, cards)
  }

  /** Removing entries, by eviction or by expiry, never breaks coherence. */
  lemma CoherentAfterRemoval(users: Table<User>, cards: Table<PaymentCard>, entries: map<string, CachedValue>, keys: set<string>)
    requires Coherent(users, cards, entries)
    ensures Coherent(users, cards, entries - keys)
  {
  }

  /** Caching what the method computed from the current tables keeps coherence. */
  lemma CoherentAfterPut(users: Table<User>, cards: Table<PaymentCard>, entries: map<string, CachedValue>, c: CacheName, id: UserId)
    requires Coherent(users, cards, entries) && id in users.rows
    ensures Coherent(users, cards, entries[RedisKey(c, id) := Expected(c, id, users, cards)])
  {
    var entries' := entries[RedisKey(c, id) := Expected(c, id, users, cards)];
    forall d: CacheName, e: UserId | RedisKey(d, e) in entries'
      ensures e in users.rows && entries'[RedisKey(d, e)] == Expected(d, e, users, cards)
    {
      if RedisKey(d, e) == RedisKey(c, id) {
        RedisKeyInjective(d, e, c, id);
      }
    }
  }

  /**
   * The frame of a write to the tables: every other user keeps its row and
   * its card list, and user `id` keeps every view not in `evicted`. Then
   * evicting `evicted` for `id` restores coherence.
   */
  lemma {:induction false} CoherentAfterWrite(
    users: Table<User>, cards: Table<PaymentCard>, users': Table<User>, cards': Table<PaymentCard>,
    entries: map<string, CachedValue>, id: UserId, evicted: set<CacheName>)
    requires Coherent(users, cards, entries)
    requires forall v :: v != id && v in users.rows ==>
      v in users'.rows && users'.rows[v] == users.rows[v] && CardViews(cards', v) == CardViews(cards, v)
    requires forall c :: c !in evicted && id in users.rows ==>
      id in users'.rows && Expected(c, id, users', cards') == Expected(c, id, users, cards)
    ensures Coherent(users', cards', entries - UserKeys(evicted, id))
  {
    var entries' := entries - UserKeys(evicted, id);
    forall c: CacheName, v: UserId | RedisKey(c, v) in entries'
      ensures v in users'.rows && entries'[RedisKey(c, v)] == Expected(c, v, users', cards')
    {
      assert RedisKey(c, v) in entries;
      if v == id {
        assert c !in evicted;
      }
    }
  }

  /**
   * The card list of user `v` survives a change to the card table that
   * neither adds nor removes a card of `v` nor changes one.
   */
  lemma CardViewsUnchanged(cards: Table<PaymentCard>, cards': Table<PaymentCard>, v: UserId)
    requires forall k :: (k in cards.rows && cards.rows[k].owner == Some(v)) <==> (k in cards'.rows && cards'.rows[k].owner == Some(v))
    requires forall k :: k in cards.rows && cards.rows[k].owner == Some(v) ==> cards'.rows[k] == cards.rows[k]
    ensures CardViews(cards', v) == CardViews(cards, v)
  {
    var p := PaymentCardRepository.OwnedBy(v);
    SelectDetermined(cards, p, cards', p);
    var ids := Select(cards, p);
    assert PaymentCardRepository.FindByUserId(cards', v) == PaymentCardRepository.FindByUserId(cards, v) by {
      forall i | 0 <= i < |ids|
        ensures cards'.rows[ids[i]] == cards.rows[ids[i]]
      {
        assert ids[i] in ids;
      }
    }
  }
}
