/**
 * The payment-card service: creation under the five-card limit, updates that
 * keep card numbers unique, status changes, and lookups. Writes evict the
 * owner's `userCards` and `usersWithCards` entries (status changes all three,
 * through the cache service) once they return normally.
 */
module CardManagement {
  import opened Common
  import opened Text
  import opened Tables
  import opened Exceptions
  import opened Entities
  import opened Responses
  import opened RedisCache
  import opened CacheCoherence
  import opened Store
  import opened UserManagement
  import opened CacheManagement
  import opened PaymentCardRequestDto
  import PaymentCardMapper
  import PaymentCardRepository
  import PaymentCardSpecifications

  const CardNotFoundPrefix: string := "Payment card not found with id: "
  const DuplicateCardNumberMessage: string := "Card with this number already exists"

  /** The `PaymentCardNotFoundException` of a card id that is not stored. */
  function CardNotFound(id: CardId): Exception {
    PaymentCardNotFoundException(CardNotFoundPrefix + NatToString(id))
  }

  /** What `updateCard` throws for a card id that is not stored: the same text, another exception. */
  function MissingCard(id: CardId): (e: Exception)
    ensures e.EntityNotFoundException? && CardNotFound(id) == PaymentCardNotFoundException(e.message)
  {
    EntityNotFoundException(CardNotFoundPrefix + NatToString(id))
  }

  function CardNotFoundForUser(cardId: CardId, userId: UserId): Exception {
    PaymentCardNotFoundException(CardNotFoundPrefix + NatToString(cardId) + " for user: " + NatToString(userId))
  }

  function CardNumberNotFound(number: string): Exception {
    PaymentCardNotFoundException("Card not found with number: " + number)
  }

  /** The caches a card write evicts for the owner: `userCards` and `usersWithCards`, not `users`. */
  const CardCaches: set<CacheName> := {UserCards, UsersWithCards}

  /** The row `createCard` inserts for `owner` under identity value `id` at time `now`. */
  function CreatedCard(req: PaymentCardRequest, owner: UserId, id: CardId, now: Timestamp): (c: PaymentCard)
    requires PaymentCardRequestDto.HasRequiredFields(req)
    ensures c.id == Some(id) && c.owner == Some(owner) && c.createdAt == Some(now) && c.updatedAt == Some(now)
    ensures c.number == req.number.value && c.holder == req.holder.value
    ensures c.expirationDate == req.expirationDate.value && c.active == req.active
  {
    PaymentCardMapper.ToEntity(req).(owner := Some(owner), id := Some(id), createdAt := Some(now), updatedAt := Some(now))
  }

  /** The request repeats the card's number, holder and expiration date. */
  predicate SameCardDetails(c: PaymentCard, req: PaymentCardRequest)
    requires PaymentCardRequestDto.HasRequiredFields(req)
  {
    c.number == req.number.value && c.holder == req.holder.value && c.expirationDate == req.expirationDate.value
  }

  /**
   * The managed card after the three setters of `updateCard`: what `save`
   * hands back and the response is built from, `updated_at` not yet stamped.
   */
  function OverwrittenCard(c: PaymentCard, req: PaymentCardRequest): (d: PaymentCard)
    requires PaymentCardRequestDto.HasRequiredFields(req)
    ensures d.id == c.id && d.owner == c.owner && d.active == c.active
    ensures d.createdAt == c.createdAt && d.updatedAt == c.updatedAt
    ensures d.number == req.number.value && d.holder == req.holder.value
    ensures d.expirationDate == req.expirationDate.value
    ensures d == c <==> SameCardDetails(c, req)
  {
    c.(number := req.number.value, holder := req.holder.value, expirationDate := req.expirationDate.value)
  }

  /**
   * The row `updateCard` leaves once the transaction commits: number, holder
   * and expiration date from the request; id, owner, `active` and
   * `created_at` kept; `updated_at` stamped only when some column changed.
   */
  function UpdatedCard(c: PaymentCard, req: PaymentCardRequest, now: Timestamp): (d: PaymentCard)
    requires PaymentCardRequestDto.HasRequiredFields(req)
    ensures d.id == c.id && d.owner == c.owner && d.active == c.active && d.createdAt == c.createdAt
    ensures d.number == req.number.value && d.holder == req.holder.value
    ensures d.expirationDate == req.expirationDate.value
    ensures SameCardDetails(c, req) ==> d == c
    ensures !SameCardDetails(c, req) ==> d.updatedAt == Some(now)
  {
    if SameCardDetails(c, req) then c else OverwrittenCard(c, req).(updatedAt := Some(now))
  }

  /**
   * The response of `updateCard` reports the stored row except for
   * `updated_at`, which still holds the value from before the update.
   */
  lemma UpdateCardResponseBeforeStamp(c: PaymentCard, req: PaymentCardRequest, now: Timestamp)
    requires PaymentCardRequestDto.HasRequiredFields(req)
    ensures PaymentCardMapper.ToDto(OverwrittenCard(c, req)).updatedAt == c.updatedAt
    ensures PaymentCardMapper.ToDto(OverwrittenCard(c, req)) ==
      PaymentCardMapper.ToDto(UpdatedCard(c, req, now)).(updatedAt := c.updatedAt)
  {
  }

  /** Some stored card already holds `number`. */
  predicate NumberStored(cards: Table<PaymentCard>, number: string) {
    exists k :: k in cards.rows && cards.rows[k].number == number
  }

  /** `updateCard` refuses the request: the number changes to one another card holds. */
  predicate NumberTaken(cards: Table<PaymentCard>, id: CardId, number: string)
    requires id in cards.rows
  {
    cards.rows[id].number != number && exists k :: k in cards.rows && k != id && cards.rows[k].number == number
  }

  /**
   * A write to the card table that touches only cards of `owner` (and keeps
   * them with `owner`) leaves every other user's card list as it was.
   */
  lemma OtherCardListsUnchanged(cards: Table<PaymentCard>, cards': Table<PaymentCard>, owner: UserId)
    requires forall k :: k in cards'.rows && k !in cards.rows ==> cards'.rows[k].owner == Some(owner)
    requires forall k :: k in cards.rows ==> k in cards'.rows
    requires forall k :: k in cards.rows && cards'.rows[k] != cards.rows[k] ==>
      cards.rows[k].owner == Some(owner) && cards'.rows[k].owner == Some(owner)
    ensures forall v :: v != owner ==> CardViews(cards', v) == CardViews(cards, v)
    ensures forall v :: v != owner ==> PaymentCardRepository.IdsOwnedBy(cards', v) == PaymentCardRepository.IdsOwnedBy(cards, v)
  {
    forall v | v != owner
      ensures CardViews(cards', v) == CardViews(cards, v)
    {
      CardViewsUnchanged(cards, cards', v);
    }
  }

  /** Of a user's three cached views, only the two card views depend on the card table. */
  lemma OnlyCardViewsDependOnCards(
    users: Table<User>, cards: Table<PaymentCard>, cards': Table<PaymentCard>,
    owner: UserId, d: CacheName, evicted: set<CacheName>)
    requires owner in users.rows && d !in evicted && CardCaches <= evicted
    ensures Expected(d, owner, users, cards') == Expected(d, owner, users, cards)
  {
    assert d !in CardCaches;
  }

  /**
   * Overwriting stored card `id` with a row of the same owner keeps the card
   * limit, and keeps coherence once the owner's card views are evicted.
   */
  lemma CardOverwriteKeepsConsistency(
    users: Table<User>, cards: Table<PaymentCard>, entries: map<string, CachedValue>,
    id: CardId, c: PaymentCard, owner: UserId, evicted: set<CacheName>)
    requires Coherent(users, cards, entries) && CardLimitRespected(cards)
    requires id in cards.rows && cards.rows[id].owner == Some(owner) && c.owner == Some(owner)
    requires CardCaches <= evicted
    ensures CardLimitRespected(TableData(cards.rows[id := c], cards.next))
    ensures Coherent(users, TableData(cards.rows[id := c], cards.next), entries - UserKeys(evicted, owner))
  {
    var cards': Table<PaymentCard> := TableData(cards.rows[id := c], cards.next);
    OtherCardListsUnchanged(cards, cards', owner);
    assert PaymentCardRepository.IdsOwnedBy(cards', owner) == PaymentCardRepository.IdsOwnedBy(cards, owner);
    assert PaymentCardRepository.CountCardsByUserId(cards, owner) <= MaxCardsPerUser;
    CardLimitKept(cards, cards', owner);
    forall d | d !in evicted && owner in users.rows
      ensures Expected(d, owner, users, cards') == Expected(d, owner, users, cards)
    {
      OnlyCardViewsDependOnCards(users, cards, cards', owner, d, evicted);
    }
    CoherentAfterWrite(users, cards, users, cards', entries, owner, evicted);
  }

  /**
   * Inserting a card of `owner` under the next identity value, while the
   * owner is below the limit, keeps the limit, and keeps coherence once the
   * owner's card views are evicted.
   */
  lemma CardInsertKeepsConsistency(
    users: Table<User>, cards: Table<PaymentCard>, entries: map<string, CachedValue>, c: PaymentCard, owner: UserId)
    requires Coherent(users, cards, entries) && CardLimitRespected(cards)
    requires c.owner == Some(owner) && PaymentCardRepository.CountCardsByUserId(cards, owner) < MaxCardsPerUser
    ensures CardLimitRespected(TableData(cards.rows[cards.next := c], cards.next + 1))
    ensures Coherent(users, TableData(cards.rows[cards.next := c], cards.next + 1), entries - UserKeys(CardCaches, owner))
  {
    var cards': Table<PaymentCard> := TableData(cards.rows[cards.next := c], cards.next + 1);
    OtherCardListsUnchanged(cards, cards', owner);
    CountAfterInsert(cards, c, owner);
    CardLimitKept(cards, cards', owner);
    forall d | d !in CardCaches && owner in users.rows
      ensures Expected(d, owner, users, cards') == Expected(d, owner, users, cards)
    {
      OnlyCardViewsDependOnCards(users, cards, cards', owner, d, CardCaches);
    }
    CoherentAfterWrite(users, cards, users, cards', entries, owner, CardCaches);
  }

  /** An identity value used up by a refused insert changes no view and no count. */
  lemma SequenceStepKeepsConsistency(users: Table<User>, cards: Table<PaymentCard>, entries: map<string, CachedValue>)
    requires Coherent(users, cards, entries) && CardLimitRespected(cards)
    ensures CardLimitRespected(TableData(cards.rows, cards.next + 1))
    ensures Coherent(users, TableData(cards.rows, cards.next + 1), entries)
  {
    var cards': Table<PaymentCard> := TableData(cards.rows, cards.next + 1);
    forall v
      ensures CardViews(cards', v) == CardViews(cards, v)
      ensures PaymentCardRepository.IdsOwnedBy(cards', v) == PaymentCardRepository.IdsOwnedBy(cards, v)
    {
      CardViewsUnchanged(cards, cards', v);
    }
    assert PaymentCardRepository.CountCardsByUserId(cards, 0) <= MaxCardsPerUser;
    CardLimitKept(cards, cards', 0);
    CoherentAfterWrite(users, cards, users, cards', entries, 0, {});
    assert entries - UserKeys({}, 0) == entries;
  }

  class PaymentCardService {
    const db: Database
    const redis: Redis
    const userService: UserService
    const cacheService: CacheService

    constructor (db: Database, redis: Redis, userService: UserService, cacheService: CacheService)
      requires userService.db == db && userService.redis == redis && cacheService.redis == redis
      ensures this.db == db && this.redis == redis
      ensures this.userService == userService && this.cacheService == cacheService
    {
      this.db := db;
      this.redis := redis;
      this.userService := userService;
      this.cacheService := cacheService;
    }

    /** The collaborators share one store and one cache, which are consistent. */
    ghost predicate Valid()
      reads db, redis
    {
      && userService.db == db && userService.redis == redis && cacheService.redis == redis
      && Consistent(db, redis)
    }

    /**
     * `createCard`: a missing user is `UserNotFoundException`; a user at the
     * limit is `CardLimitExceededException`; otherwise the card is attached
     * to the user and inserted, and a number already stored is refused by the
     * unique constraint. The identity value is used even then.
     */
    method CreateCard(req: PaymentCardRequest, userId: UserId, now: Timestamp) returns (r: Result<PaymentCardResponse>)
      requires Valid() && PaymentCardRequestDto.HasRequiredFields(req)
      modifies db, redis
      ensures Valid()
      ensures db.users == old(db.users)
      ensures r != Err(IllegalStateException(CardLimitMessage))
      ensures userId !in old(db.users.rows) ==>
        r == Err(UserNotFound(userId)) && db.cards == old(db.cards) && redis.entries == old(redis.entries)
      ensures userId in old(db.users.rows) && PaymentCardRepository.CountCardsByUserId(old(db.cards), userId) >= MaxCardsPerUser ==>
        r == Err(CardLimitExceededException(CardLimitMessage)) && db.cards == old(db.cards) && redis.entries == old(redis.entries)
      ensures userId in old(db.users.rows) && PaymentCardRepository.CountCardsByUserId(old(db.cards), userId) < MaxCardsPerUser ==>
        && db.cards.next == old(db.cards.next) + 1
        && (NumberStored(old(db.cards), req.number.value) ==>
              && r == Err(DataIntegrityViolationException(UniqueViolation))
              && db.cards.rows == old(db.cards.rows) && redis.entries == old(redis.entries))
        && (!NumberStored(old(db.cards), req.number.value) ==>
              && db.cards.rows == old(db.cards.rows)[old(db.cards.next) := CreatedCard(req, userId, old(db.cards.next), now)]
              && r == Ok(PaymentCardMapper.ToDto(CreatedCard(req, userId, old(db.cards.next), now)))
              && redis.entries == old(redis.entries) - UserKeys(CardCaches, userId))
    {
      ghost var cards0 := db.cards;
      ghost var entries0 := redis.entries;
      var user := userService.GetUserEntityById(userId);
      if user.Err? {
        return Err(user.error);
      }
      var cardCount := PaymentCardRepository.CountCardsByUserId(db.cards, userId);
      if cardCount >= MaxCardsPerUser {
        return Err(CardLimitExceededException(CardLimitMessage));
      }
      var card := PaymentCardMapper.ToEntity(req);
      var attached := user.value.AddPaymentCard(card);
      match attached {
        case Err(e) =>
          r := Err(e);
        case Ok(c) =>
          var saved := db.SaveNewCard(c, now);
          r := match saved case Ok(s) => Ok(PaymentCardMapper.ToDto(s)) case Err(e) => Err(e);
          if saved.Ok? {
            assert db.cards == TableData(cards0.rows[cards0.next := saved.value], cards0.next + 1);
            CardInsertKeepsConsistency(db.users, cards0, entries0, saved.value, userId);
            redis.EvictFromCaches(CardCaches, userId);
          } else {
            assert db.cards == TableData(cards0.rows, cards0.next + 1);
            SequenceStepKeepsConsistency(db.users, cards0, entries0);
          }
      }
    }

    /** `getCardById`. */
    function GetCardById(id: CardId): (r: Result<PaymentCardResponse>)
      reads db
      ensures r.Ok? <==> id in db.cards.rows
      ensures r.Ok? ==> r.value == PaymentCardMapper.ToDto(db.cards.rows[id])
      ensures r.Err? ==> r.error == CardNotFound(id)
    {
      match PaymentCardRepository.FindById(db.cards, id)
      case Some(c) => Ok(PaymentCardMapper.ToDto(c))
      case None => Err(CardNotFound(id))
    }

    /** `getAllCards`: the cards passing all three optional filters. */
    function GetAllCards(holder: Option<string>, active: Option<bool>, userId: Option<UserId>): (page: seq<PaymentCardResponse>)
      reads db
      ensures forall c :: (c in db.cards.rows.Values && TextFilter(c.holder, holder)
        && (active.None? || c.active == active) && (userId.None? || c.owner == userId)) ==> PaymentCardMapper.ToDto(c) in page
      ensures forall d :: d in page ==> exists c :: (c in db.cards.rows.Values && d == PaymentCardMapper.ToDto(c)
        && TextFilter(c.holder, holder) && (active.None? || c.active == active) && (userId.None? || c.owner == userId))
    {
      var spec := And(And(PaymentCardSpecifications.HasHolderName(holder), PaymentCardSpecifications.IsActive(active)),
                      PaymentCardSpecifications.HasUserId(userId));
      MapRows(Query(db.cards, spec), PaymentCardMapper.ToDto)
    }

    /** `getActiveCards`: the cards whose `active` is true. */
    function GetActiveCards(): (page: seq<PaymentCardResponse>)
      reads db
      ensures forall c :: c in db.cards.rows.Values && c.active == Some(true) ==> PaymentCardMapper.ToDto(c) in page
      ensures forall d :: d in page ==> (d.active == Some(true)
        && exists c :: c in db.cards.rows.Values && d == PaymentCardMapper.ToDto(c))
    {
      MapRows(PaymentCardRepository.FindByActiveTrue(db.cards), PaymentCardMapper.ToDto)
    }

    /** `getAllCardsByUserId`: the cards of one user, each reporting that user. */
    function GetAllCardsByUserId(userId: UserId): (page: seq<PaymentCardResponse>)
      reads db
      ensures forall c :: c in db.cards.rows.Values && c.owner == Some(userId) ==> PaymentCardMapper.ToDto(c) in page
      ensures forall d :: d in page ==> (d.userId == Some(userId)
        && exists c :: c in db.cards.rows.Values && d == PaymentCardMapper.ToDto(c))
      ensures |page| == PaymentCardRepository.CountCardsByUserId(db.cards, userId)
    {
      MapRows(PaymentCardRepository.FindByUserId(db.cards, userId), PaymentCardMapper.ToDto)
    }

    /** `getActiveCardsByUserId`: the active cards of one user. */
    function GetActiveCardsByUserId(userId: UserId): (page: seq<PaymentCardResponse>)
      reads db
      ensures forall c :: (c in db.cards.rows.Values && c.owner == Some(userId) && c.active == Some(true)) ==>
        PaymentCardMapper.ToDto(c) in page
      ensures forall d :: d in page ==> (d.userId == Some(userId) && d.active == Some(true)
        && exists c :: c in db.cards.rows.Values && d == PaymentCardMapper.ToDto(c))
    {
      MapRows(PaymentCardRepository.FindByUserIdAndActiveStatus(db.cards, userId, true), PaymentCardMapper.ToDto)
    }

    /**
     * `updateCard`: a missing card is `EntityNotFoundException`; a number
     * changed to one another card holds is `DuplicateCardNumberException`;
     * otherwise the row is overwritten and the owner's card views are evicted.
     * The response is built before the commit stamps `updated_at`.
     */
    method UpdateCard(id: CardId, req: PaymentCardRequest, now: Timestamp) returns (r: Result<PaymentCardResponse>)
      requires Valid() && PaymentCardRequestDto.HasRequiredFields(req)
      modifies db, redis
      ensures Valid()
      ensures db.users == old(db.users) && db.cards.next == old(db.cards.next)
      ensures id !in old(db.cards.rows) ==>
        r == Err(MissingCard(id)) && db.cards == old(db.cards) && redis.entries == old(redis.entries)
      ensures id in old(db.cards.rows) && NumberTaken(old(db.cards), id, req.number.value) ==>
        && r == Err(DuplicateCardNumberException(DuplicateCardNumberMessage))
        && db.cards == old(db.cards) && redis.entries == old(redis.entries)
      ensures id in old(db.cards.rows) && !NumberTaken(old(db.cards), id, req.number.value) ==>
        && db.cards.rows == old(db.cards.rows)[id := UpdatedCard(old(db.cards.rows[id]), req, now)]
        && r == Ok(PaymentCardMapper.ToDto(OverwrittenCard(old(db.cards.rows[id]), req)))
        && redis.entries == old(redis.entries) - UserKeys(CardCaches, old(db.cards.rows[id].owner.value))
    {
      ghost var cards0 := db.cards;
      ghost var entries0 := redis.entries;
      var found := PaymentCardRepository.FindById(db.cards, id);
      if found.None? {
        return Err(MissingCard(id));
      }
      var card := found.value;
      if card.number != req.number.value {
        var existing := PaymentCardRepository.FindByNumber(db.cards, req.number.value);
        if exists k :: k in db.cards.rows && k != id && db.cards.rows[k].number == req.number.value {
          var k :| k in db.cards.rows && k != id && db.cards.rows[k].number == req.number.value;
          PaymentCardRepository.FindByNumberUnique(db.cards, req.number.value, k);
        }
        if existing.Some? && existing.value.id != Some(id) {
          return Err(DuplicateCardNumberException(DuplicateCardNumberMessage));
        }
      }
      card := card.(number := req.number.value, holder := req.holder.value,
                    expirationDate := req.expirationDate.value);
      assert card == OverwrittenCard(cards0.rows[id], req);
      var saved := db.SaveCard(id, card, now);
      r := match saved case Ok(s) => Ok(PaymentCardMapper.ToDto(s)) case Err(e) => Err(e);
      if saved.Ok? {
        var owner := saved.value.owner.value;
        ghost var stored := UpdatedCard(cards0.rows[id], req, now);
        assert db.cards == TableData(cards0.rows[id := stored], cards0.next);
        CardOverwriteKeepsConsistency(db.users, cards0, entries0, id, stored, owner, CardCaches);
        redis.EvictFromCaches(CardCaches, owner);
      }
    }

    /** `getCardEntityById`: the stored card, or `PaymentCardNotFoundException`. */
    function GetCardEntityById(id: CardId): (r: Result<PaymentCard>)
      reads db
      ensures r.Ok? <==> id in db.cards.rows
      ensures r.Ok? ==> r.value == db.cards.rows[id]
      ensures r.Err? ==> r.error == CardNotFound(id)
    {
      match PaymentCardRepository.FindById(db.cards, id)
      case Some(c) => Ok(c)
      case None => Err(CardNotFound(id))
    }

    /**
     * The shared body of `activateCard` and `deactivateCard`: a missing card
     * is `PaymentCardNotFoundException`; otherwise the bulk update sets
     * `active` and the cache service evicts all three entries of the owner.
     */
    method SetCardActiveStatus(id: CardId, active: bool) returns (r: Result<()>)
      requires Valid()
      modifies db, redis
      ensures Valid()
      ensures db.users == old(db.users)
      ensures id !in old(db.cards.rows) ==>
        r == Err(CardNotFound(id)) && db.cards == old(db.cards) && redis.entries == old(redis.entries)
      ensures id in old(db.cards.rows) ==>
        && r == Ok(())
        && db.cards == PaymentCardRepository.UpdateActiveStatus(old(db.cards), id, active)
        && redis.entries == old(redis.entries) - UserKeys(AllCaches, old(db.cards.rows[id].owner.value))
    {
      ghost var cards0 := db.cards;
      var card := GetCardEntityById(id);
      if card.Err? {
        return Err(card.error);
      }
      var owner := card.value.owner.value;
      db.UpdateCardActiveStatus(id, active);
      CardOverwriteKeepsConsistency(db.users, cards0, redis.entries, id, db.cards.rows[id], owner, AllCaches);
      cacheService.EvictUserCaches(owner);
      r := Ok(());
    }

    /** `activateCard`. */
    method ActivateCard(id: CardId) returns (r: Result<()>)
      requires Valid()
      modifies db, redis
      ensures Valid()
      ensures db.users == old(db.users) && db.cards.next == old(db.cards.next)
      ensures r.Ok? <==> id in old(db.cards.rows)
      ensures r.Ok? ==> (id in db.cards.rows && db.cards.rows[id].active == Some(true)
        && db.cards.rows == old(db.cards.rows)[id := old(db.cards.rows[id]).(active := Some(true))]
        && redis.entries == old(redis.entries) - UserKeys(AllCaches, old(db.cards.rows[id].owner.value)))
      ensures r.Err? ==> r.error == CardNotFound(id) && db.cards == old(db.cards) && redis.entries == old(redis.entries)
    {
      r := SetCardActiveStatus(id, true);
    }

    /** `deactivateCard`. */
    method DeactivateCard(id: CardId) returns (r: Result<()>)
      requires Valid()
      modifies db, redis
      ensures Valid()
      ensures db.users == old(db.users) && db.cards.next == old(db.cards.next)
      ensures r.Ok? <==> id in old(db.cards.rows)
      ensures r.Ok? ==> (id in db.cards.rows && db.cards.rows[id].active == Some(false)
        && db.cards.rows == old(db.cards.rows)[id := old(db.cards.rows[id]).(active := Some(false))]
        && redis.entries == old(redis.entries) - UserKeys(AllCaches, old(db.cards.rows[id].owner.value)))
      ensures r.Err? ==> r.error == CardNotFound(id) && db.cards == old(db.cards) && redis.entries == old(redis.entries)
    {
      r := SetCardActiveStatus(id, false);
    }

    /** `getCardByUserAndId`: card `cardId`, only when `userId` owns it. */
    function GetCardByUserAndId(userId: UserId, cardId: CardId): (r: Result<PaymentCardResponse>)
      reads db
      ensures r.Ok? <==> cardId in db.cards.rows && db.cards.rows[cardId].owner == Some(userId)
      ensures r.Ok? ==> r.value == PaymentCardMapper.ToDto(db.cards.rows[cardId]) && r.value.userId == Some(userId)
      ensures r.Err? ==> r.error == CardNotFoundForUser(cardId, userId)
    {
      match PaymentCardRepository.FindByIdAndUserId(db.cards, cardId, userId)
      case Some(c) => Ok(PaymentCardMapper.ToDto(c))
      case None => Err(CardNotFoundForUser(cardId, userId))
    }

    /** `getCardByNumber`: the one card holding `number`. */
    function GetCardByNumber(number: string): (r: Result<PaymentCardResponse>)
      reads db
      requires db.Valid()
      ensures r.Ok? <==> NumberStored(db.cards, number)
      ensures forall k :: k in db.cards.rows && db.cards.rows[k].number == number ==>
        r == Ok(PaymentCardMapper.ToDto(db.cards.rows[k]))
      ensures r.Err? ==> r.error == CardNumberNotFound(number)
    {
      var found := PaymentCardRepository.FindByNumber(db.cards, number);
      assert forall k :: k in db.cards.rows && db.cards.rows[k].number == number ==> found == Some(db.cards.rows[k]) by {
        forall k | k in db.cards.rows && db.cards.rows[k].number == number
          ensures found == Some(db.cards.rows[k])
        {
          PaymentCardRepository.FindByNumberUnique(db.cards, number, k);
        }
      }
      match found
      case Some(c) => Ok(PaymentCardMapper.ToDto(c))
      case None => Err(CardNumberNotFound(number))
    }
  }
}
