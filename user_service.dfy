/**
 * The user service: reads through the `users`, `usersWithCards` and
 * `userCards` caches, and writes that evict the three entries of the user
 * they touch once they return normally. Every method keeps the store's
 * constraints, the card limit and cache coherence.
 */
module UserManagement {
  import opened Common
  import opened Text
  import opened Tables
  import opened Exceptions
  import opened Entities
  import opened Responses
  import opened RedisCache
  import opened CacheCoherence
  import opened Store
  import opened UserRequestDto
  import UserMapper
  import UserRepository
  import PaymentCardRepository
  import UserSpecifications

  const UserNotFoundPrefix: string := "User not found with id: "

  /** The `UserNotFoundException` every lookup of a missing id throws. */
  function UserNotFound(id: UserId): (e: Exception)
    ensures e.UserNotFoundException? && StartsWith(e.message, UserNotFoundPrefix)
  {
    UserNotFoundException(UserNotFoundPrefix + NatToString(id))
  }

  /** The message names the id: two missing ids never give the same error. */
  lemma UserNotFoundNamesId(id: UserId, other: UserId)
    requires UserNotFound(id) == UserNotFound(other)
    ensures id == other
  {
    var n := |UserNotFoundPrefix|;
    assert UserNotFound(id).message[n..] == NatToString(id);
    assert UserNotFound(other).message[n..] == NatToString(other);
    NatToStringInjective(id, other);
  }

  /** The `DuplicateEmailException` of `createUser` and `updateUser`. */
  function DuplicateEmail(email: string): Exception {
    DuplicateEmailException("User with email " + email + " already exists")
  }

  /** The row `createUser` inserts under identity value `id` at time `now`. */
  function Created(req: UserRequest, id: UserId, now: Timestamp): (u: User)
    requires HasRequiredFields(req)
    ensures u.id == Some(id) && u.createdAt == Some(now) && u.updatedAt == Some(now)
    ensures u.name == req.name.value && u.surname == req.surname.value && u.birthDate == req.birthDate
    ensures u.email == req.email.value && u.active == req.active
  {
    UserMapper.ToEntity(req).(id := Some(id), createdAt := Some(now), updatedAt := Some(now))
  }

  /** The request repeats the user's name, surname, birth date and email. */
  predicate SameDetails(u: User, req: UserRequest)
    requires HasRequiredFields(req)
  {
    u.name == req.name.value && u.surname == req.surname.value && u.birthDate == req.birthDate
    && u.email == req.email.value
  }

  /**
   * The managed user after the four setters of `updateUser`: what `save`
   * hands back and the response is built from, `updated_at` not yet stamped.
   */
  function Overwritten(u: User, req: UserRequest): (v: User)
    requires HasRequiredFields(req)
    ensures v.id == u.id && v.active == u.active && v.createdAt == u.createdAt && v.updatedAt == u.updatedAt
    ensures v.name == req.name.value && v.surname == req.surname.value && v.birthDate == req.birthDate
    ensures v.email == req.email.value
    ensures v == u <==> SameDetails(u, req)
  {
    u.(name := req.name.value, surname := req.surname.value, birthDate := req.birthDate, email := req.email.value)
  }

  /**
   * The row `updateUser` leaves once the transaction commits: name, surname,
   * birth date and email from the request; id, `active` and `created_at`
   * kept; `updated_at` stamped only when some column actually changed.
   */
  function Updated(u: User, req: UserRequest, now: Timestamp): (v: User)
    requires HasRequiredFields(req)
    ensures v.id == u.id && v.active == u.active && v.createdAt == u.createdAt
    ensures v.name == req.name.value && v.surname == req.surname.value && v.birthDate == req.birthDate
    ensures v.email == req.email.value
    ensures SameDetails(u, req) ==> v == u
    ensures !SameDetails(u, req) ==> v.updatedAt == Some(now)
  {
    if SameDetails(u, req) then u else Overwritten(u, req).(updatedAt := Some(now))
  }

  /**
   * The response of `updateUser` reports the stored row except for
   * `updated_at`, which still holds the value from before the update.
   */
  lemma UpdateResponseBeforeStamp(u: User, req: UserRequest, now: Timestamp)
    requires HasRequiredFields(req)
    ensures UserMapper.ToDto(Overwritten(u, req)).updatedAt == u.updatedAt
    ensures UserMapper.ToDto(Overwritten(u, req)) ==
      UserMapper.ToDto(Updated(u, req, now)).(updatedAt := u.updatedAt)
  {
  }

  /** `updateUser` refuses the request: the email changes to one another user holds. */
  predicate EmailTaken(users: Table<User>, id: UserId, email: string)
    requires id in users.rows
  {
    users.rows[id].email != email && UserRepository.ExistsByEmail(users, email)
  }

  /** Under the unique constraint, keeping one's own email is never a clash, and taking another's always is. */
  lemma EmailTakenByOther(users: Table<User>, id: UserId, email: string)
    requires UserRepository.EmailUnique(users) && id in users.rows
    ensures EmailTaken(users, id, email) <==> exists k :: k in users.rows && k != id && users.rows[k].email == email
  {
  }

  /** The state every service method starts from and leaves behind. */
  ghost predicate Consistent(db: Database, redis: Redis)
    reads db, redis
  {
    db.Valid() && CardLimitRespected(db.cards) && Coherent(db.users, db.cards, redis.entries)
  }

  class UserService {
    const db: Database
    const redis: Redis

    constructor (db: Database, redis: Redis)
      ensures this.db == db && this.redis == redis
    {
      this.db := db;
      this.redis := redis;
    }

    ghost predicate Valid()
      reads db, redis
    {
      Consistent(db, redis)
    }

    /**
     * `createUser`: refuses an email already stored; otherwise inserts the
     * mapped request under the next identity value. No cache entry can name
     * the new id, so nothing is evicted.
     */
    method CreateUser(req: UserRequest, now: Timestamp) returns (r: Result<UserResponse>)
      requires Valid() && HasRequiredFields(req)
      modifies db
      ensures Valid()
      ensures db.cards == old(db.cards)
      ensures UserRepository.ExistsByEmail(old(db.users), req.email.value) ==>
        r == Err(DuplicateEmail(req.email.value)) && db.users == old(db.users)
      ensures !UserRepository.ExistsByEmail(old(db.users), req.email.value) ==>
        && db.users.next == old(db.users.next) + 1
        && db.users.rows == old(db.users.rows)[old(db.users.next) := Created(req, old(db.users.next), now)]
        && r == Ok(UserMapper.ToDto(Created(req, old(db.users.next), now)))
    {
      ghost var users0 := db.users;
      if UserRepository.ExistsByEmail(db.users, req.email.value) {
        return Err(DuplicateEmail(req.email.value));
      }
      var user := UserMapper.ToEntity(req);
      var saved := db.SaveNewUser(user, now);
      r := match saved case Ok(u) => Ok(UserMapper.ToDto(u)) case Err(e) => Err(e);
      CoherentAfterWrite(users0, db.cards, db.users, db.cards, redis.entries, users0.next, {});
      assert redis.entries - UserKeys({}, users0.next) == redis.entries;
    }

    /** `getUserById`, cached in `users` under the id. A failed lookup caches nothing. */
    method GetUserById(id: UserId) returns (r: Result<UserResponse>)
      requires Valid()
      modifies redis
      ensures Valid()
      ensures id in db.users.rows ==>
        && r == Ok(UserMapper.ToDto(db.users.rows[id]))
        && redis.entries == old(redis.entries)[RedisKey(Users, id) := UserValue(r.value)]
      ensures id !in db.users.rows ==> r == Err(UserNotFound(id)) && redis.entries == old(redis.entries)
    {
      var key := RedisKey(Users, id);
      var hit := redis.Get(key);
      if hit.Some? && hit.value.UserValue? {
        assert redis.entries == redis.entries[key := hit.value];
        return Ok(hit.value.user);
      }
      var found := UserRepository.FindById(db.users, id);
      if found.None? {
        return Err(UserNotFound(id));
      }
      var dto := UserMapper.ToDto(found.value);
      CoherentAfterPut(db.users, db.cards, redis.entries, Users, id);
      redis.Put(key, UserValue(dto));
      r := Ok(dto);
    }

    /** `getUserWithCardsById`, cached in `usersWithCards`: the user's columns and its cards. */
    method GetUserWithCardsById(id: UserId) returns (r: Result<UserWithCardsResponse>)
      requires Valid()
      modifies redis
      ensures Valid()
      ensures id in db.users.rows ==>
        && r == Ok(UserWithCardsView(db.users.rows[id], CardViews(db.cards, id)))
        && redis.entries == old(redis.entries)[RedisKey(UsersWithCards, id) := UserWithCardsValue(r.value)]
      ensures id !in db.users.rows ==> r == Err(UserNotFound(id)) && redis.entries == old(redis.entries)
    {
      var key := RedisKey(UsersWithCards, id);
      var hit := redis.Get(key);
      if hit.Some? && hit.value.UserWithCardsValue? {
        assert redis.entries == redis.entries[key := hit.value];
        return Ok(hit.value.userWithCards);
      }
      var found := UserRepository.FindById(db.users, id);
      if found.None? {
        return Err(UserNotFound(id));
      }
      var dto := UserWithCardsView(found.value, CardViews(db.cards, id));
      CoherentAfterPut(db.users, db.cards, redis.entries, UsersWithCards, id);
      redis.Put(key, UserWithCardsValue(dto));
      r := Ok(dto);
    }

    /** `getAllUsers`: the users passing all three optional filters. */
    function GetAllUsers(name: Option<string>, surname: Option<string>, active: Option<bool>): (page: seq<UserResponse>)
      reads db
      ensures forall u :: (u in db.users.rows.Values && TextFilter(u.name, name) && TextFilter(u.surname, surname)
        && (active.None? || u.active == active)) ==> UserMapper.ToDto(u) in page
      ensures forall d :: d in page ==> exists u :: (u in db.users.rows.Values && d == UserMapper.ToDto(u)
        && TextFilter(u.name, name) && TextFilter(u.surname, surname) && (active.None? || u.active == active))
    {
      var spec := And(And(UserSpecifications.HasFirstName(name), UserSpecifications.HasSurname(surname)),
                      UserSpecifications.IsActive(active));
      MapRows(Query(db.users, spec), UserMapper.ToDto)
    }

    /** `getActiveUsers`: the users whose `active` is true. */
    function GetActiveUsers(): (page: seq<UserResponse>)
      reads db
      ensures forall u :: u in db.users.rows.Values && u.active == Some(true) ==> UserMapper.ToDto(u) in page
      ensures forall d :: d in page ==> d.active == Some(true) && exists u :: u in db.users.rows.Values && d == UserMapper.ToDto(u)
    {
      MapRows(UserRepository.FindByActiveTrue(db.users), UserMapper.ToDto)
    }

    /** `getUsersByNameAndSurnameContaining`: a null filter imposes nothing, a blank one is still a filter. */
    function GetUsersByNameAndSurnameContaining(name: Option<string>, surname: Option<string>): (page: seq<UserResponse>)
      reads db
      ensures forall u :: (u in db.users.rows.Values && UserRepository.ContainingIgnoringCase(u.name, name)
        && UserRepository.ContainingIgnoringCase(u.surname, surname)) ==> UserMapper.ToDto(u) in page
      ensures forall d :: d in page ==> exists u :: (u in db.users.rows.Values && d == UserMapper.ToDto(u)
        && UserRepository.ContainingIgnoringCase(u.name, name) && UserRepository.ContainingIgnoringCase(u.surname, surname))
    {
      MapRows(UserRepository.FindByNameAndSurnameContaining(db.users, name, surname), UserMapper.ToDto)
    }

    /** `getActiveUsersBornBefore`: active users born strictly before `birthDate`. */
    function GetActiveUsersBornBefore(birthDate: Date): (page: seq<UserResponse>)
      reads db
      ensures forall u :: u in db.users.rows.Values && UserRepository.ActiveBornBefore(u, birthDate, true) ==>
        UserMapper.ToDto(u) in page
      ensures forall d :: d in page ==> (d.active == Some(true) && d.birthDate.Some? && d.birthDate.value < birthDate
        && exists u :: u in db.users.rows.Values && d == UserMapper.ToDto(u))
    {
      MapRows(UserRepository.FindActiveUsersBornBefore(db.users, birthDate, true), UserMapper.ToDto)
    }

    /**
     * `updateUser`: a missing id is `UserNotFoundException`; an email changed
     * to one already stored is `DuplicateEmailException`; otherwise the row
     * is overwritten and the user's three cache entries are evicted. The
     * response is built before the commit stamps `updated_at`.
     * `emailChecked` says whether `existsByEmail` was asked.
     */
    method UpdateUser(id: UserId, req: UserRequest, now: Timestamp) returns (r: Result<UserResponse>, ghost emailChecked: bool)
      requires Valid() && HasRequiredFields(req)
      modifies db, redis
      ensures Valid()
      ensures db.cards == old(db.cards) && db.users.next == old(db.users.next)
      ensures emailChecked <==> id in old(db.users.rows) && old(db.users.rows[id].email) != req.email.value
      ensures id !in old(db.users.rows) ==>
        r == Err(UserNotFound(id)) && db.users == old(db.users) && redis.entries == old(redis.entries)
      ensures id in old(db.users.rows) && EmailTaken(old(db.users), id, req.email.value) ==>
        r == Err(DuplicateEmail(req.email.value)) && db.users == old(db.users) && redis.entries == old(redis.entries)
      ensures id in old(db.users.rows) && !EmailTaken(old(db.users), id, req.email.value) ==>
        && db.users.rows == old(db.users.rows)[id := Updated(old(db.users.rows[id]), req, now)]
        && r == Ok(UserMapper.ToDto(Overwritten(old(db.users.rows[id]), req)))
        && redis.entries == old(redis.entries) - UserKeys(AllCaches, id)
    {
      ghost var users0 := db.users;
      ghost var entries0 := redis.entries;
      emailChecked := false;
      var found := UserRepository.FindById(db.users, id);
      if found.None? {
        return Err(UserNotFound(id)), emailChecked;
      }
      var user := found.value;
      if user.email != req.email.value {
        emailChecked := true;
        if UserRepository.ExistsByEmail(db.users, req.email.value) {
          return Err(DuplicateEmail(req.email.value)), emailChecked;
        }
      }
      user := user.(name := req.name.value, surname := req.surname.value, birthDate := req.birthDate,
                    email := req.email.value);
      assert user == Overwritten(users0.rows[id], req);
      var saved := db.SaveUser(id, user, now);
      r := match saved case Ok(u) => Ok(UserMapper.ToDto(u)) case Err(e) => Err(e);
      if saved.Ok? {
        CoherentAfterWrite(users0, db.cards, db.users, db.cards, entries0, id, AllCaches);
        redis.EvictFromCaches(AllCaches, id);
      }
    }

    /**
     * `getUserEntityById`: the managed entity of a stored user, its card
     * collection loaded with the user's cards.
     */
    method GetUserEntityById(id: UserId) returns (r: Result<UserEntity>)
      ensures r.Ok? <==> id in db.users.rows
      ensures r.Ok? ==> (fresh(r.value) && r.value.user == db.users.rows[id]
        && r.value.paymentCards == PaymentCardRepository.FindByUserId(db.cards, id))
      ensures r.Err? ==> r.error == UserNotFound(id)
    {
      var found := UserRepository.FindById(db.users, id);
      if found.None? {
        return Err(UserNotFound(id));
      }
      var entity := new UserEntity.Load(found.value, PaymentCardRepository.FindByUserId(db.cards, id));
      r := Ok(entity);
    }

    /**
     * The shared body of `activateUser` and `deactivateUser`: a missing id is
     * `UserNotFoundException`; otherwise the bulk update sets `active` and the
     * user's three cache entries are evicted.
     */
    method SetActiveStatus(id: UserId, active: bool) returns (r: Result<()>)
      requires Valid()
      modifies db, redis
      ensures Valid()
      ensures db.cards == old(db.cards)
      ensures id !in old(db.users.rows) ==>
        r == Err(UserNotFound(id)) && db.users == old(db.users) && redis.entries == old(redis.entries)
      ensures id in old(db.users.rows) ==>
        && r == Ok(())
        && db.users == UserRepository.UpdateActiveStatus(old(db.users), id, active)
        && redis.entries == old(redis.entries) - UserKeys(AllCaches, id)
    {
      ghost var users0 := db.users;
      var user := GetUserEntityById(id);
      if user.Err? {
        return Err(user.error);
      }
      db.UpdateUserActiveStatus(id, active);
      CoherentAfterWrite(users0, db.cards, db.users, db.cards, redis.entries, id, AllCaches);
      redis.EvictFromCaches(AllCaches, id);
      r := Ok(());
    }

    /** `activateUser`. */
    method ActivateUser(id: UserId) returns (r: Result<()>)
      requires Valid()
      modifies db, redis
      ensures Valid()
      ensures db.cards == old(db.cards) && db.users.next == old(db.users.next)
      ensures r.Ok? <==> id in old(db.users.rows)
      ensures r.Ok? ==> (id in db.users.rows && db.users.rows[id].active == Some(true)
        && db.users.rows == old(db.users.rows)[id := old(db.users.rows[id]).(active := Some(true))]
        && redis.entries == old(redis.entries) - UserKeys(AllCaches, id))
      ensures r.Err? ==> r.error == UserNotFound(id) && db.users == old(db.users) && redis.entries == old(redis.entries)
    {
      r := SetActiveStatus(id, true);
    }

    /** `deactivateUser`. */
    method DeactivateUser(id: UserId) returns (r: Result<()>)
      requires Valid()
      modifies db, redis
      ensures Valid()
      ensures db.cards == old(db.cards) && db.users.next == old(db.users.next)
      ensures r.Ok? <==> id in old(db.users.rows)
      ensures r.Ok? ==> (id in db.users.rows && db.users.rows[id].active == Some(false)
        && db.users.rows == old(db.users.rows)[id := old(db.users.rows[id]).(active := Some(false))]
        && redis.entries == old(redis.entries) - UserKeys(AllCaches, id))
      ensures r.Err? ==> r.error == UserNotFound(id) && db.users == old(db.users) && redis.entries == old(redis.entries)
    {
      r := SetActiveStatus(id, false);
    }

    /** `getUserCards`, cached in `userCards`: the user's cards, after checking the user exists. */
    method GetUserCards(userId: UserId) returns (r: Result<seq<PaymentCardResponse>>)
      requires Valid()
      modifies redis
      ensures Valid()
      ensures userId in db.users.rows ==>
        && r == Ok(CardViews(db.cards, userId))
        && redis.entries == old(redis.entries)[RedisKey(UserCards, userId) := CardListValue(r.value)]
      ensures userId !in db.users.rows ==> r == Err(UserNotFound(userId)) && redis.entries == old(redis.entries)
    {
      var key := RedisKey(UserCards, userId);
      var hit := redis.Get(key);
      if hit.Some? && hit.value.CardListValue? {
        assert redis.entries == redis.entries[key := hit.value];
        return Ok(hit.value.cards);
      }
      var user := GetUserEntityById(userId);
      if user.Err? {
        return Err(user.error);
      }
      var views := CardViews(db.cards, userId);
      CoherentAfterPut(db.users, db.cards, redis.entries, UserCards, userId);
      redis.Put(key, CardListValue(views));
      r := Ok(views);
    }

    /** `getUserByEmail`: the user holding the email, if any. */
    function GetUserByEmail(email: string): (r: Option<UserResponse>)
      reads db
      requires db.Valid()
      ensures r.Some? <==> exists k :: k in db.users.rows && db.users.rows[k].email == email
      ensures forall k :: k in db.users.rows && db.users.rows[k].email == email ==> r == Some(UserMapper.ToDto(db.users.rows[k]))
    {
      var found := UserRepository.FindByEmail(db.users, email);
      assert forall k :: k in db.users.rows && db.users.rows[k].email == email ==> found == Some(db.users.rows[k]) by {
        forall k | k in db.users.rows && db.users.rows[k].email == email
          ensures found == Some(db.users.rows[k])
        {
          UserRepository.FindByEmailUnique(db.users, email, k);
        }
      }
      match found case Some(u) => Some(UserMapper.ToDto(u)) case None => None
    }

    /**
     * `deleteUser`: a missing id is `UserNotFoundException`; otherwise the
     * user and, by cascade, its cards are deleted and its three cache
     * entries evicted.
     */
    method DeleteUser(id: UserId) returns (r: Result<()>)
      requires Valid()
      modifies db, redis
      ensures Valid()
      ensures id !in old(db.users.rows) ==>
        r == Err(UserNotFound(id)) && db.users == old(db.users) && db.cards == old(db.cards)
        && redis.entries == old(redis.entries)
      ensures id in old(db.users.rows) ==>
        && r == Ok(())
        && db.users == TableData(old(db.users.rows) - {id}, old(db.users.next))
        && db.cards == WithoutCardsOf(old(db.cards), id)
        && redis.entries == old(redis.entries) - UserKeys(AllCaches, id)
    {
      ghost var users0 := db.users;
      ghost var cards0 := db.cards;
      var user := GetUserEntityById(id);
      if user.Err? {
        return Err(user.error);
      }
      db.DeleteUserById(id);
      forall v | v != id
        ensures CardViews(db.cards, v) == CardViews(cards0, v)
      {
        CardViewsUnchanged(cards0, db.cards, v);
      }
      forall c: CacheName
        ensures c in AllCaches
      {
        AllCachesNamesEvery(c);
      }
      CoherentAfterWrite(users0, cards0, db.users, db.cards, redis.entries, id, AllCaches);
      CardLimitKept(cards0, db.cards, id);
      redis.EvictFromCaches(AllCaches, id);
      r := Ok(());
    }
  }
}
