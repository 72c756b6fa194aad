# UserService in Dafny

A model of the core of the UserService Spring application. The service keeps users and their payment cards in two database tables. It caches three read views per user in Redis:

- `users`: the user;
- `usersWithCards`: the user together with its cards;
- `userCards`: the user's card list.

The model covers:

- the two entities and the database constraints on them;
- the query semantics of the two repositories;
- the filter specifications;
- the request validators;
- the MapStruct projections;
- the exception-to-HTTP mapping;
- the cache-maintenance service;
- the two business services.

## How the model is built

The database is the class `Store.Database`. It holds two tables, each a map from an identity value to a row plus the next identity value. Its `Valid()` predicate holds the schema constraints:

- email is unique;
- card number is unique;
- every card refers to an existing user.

Redis is the class `RedisCache.Redis`. Its entries are keyed by the real key strings `user-service:<cache>::<id>`.

The services are classes whose methods change both objects. `@Cacheable` becomes an explicit read-through, and `@CacheEvict` becomes an eviction that runs only when the method returns normally.

The invariant of every service class is `UserManagement.Consistent`, which combines three properties:

- the database constraints;
- at most five cards per user (`Store.CardLimitRespected`);
- cache coherence (`CacheCoherence.Coherent`): every cached entry equals what its cached method would compute from the current tables.

Every write method keeps this invariant through exactly the eviction set its annotations name.

Clock values (`now` for audit timestamps, `today` for date validation) are parameters. So is the email-syntax predicate behind `@Email`. Listings are returned in ascending id order.

## Behaviour that differs from the obvious reading

- **Duplicate card number in `createCard`.** `createCard` does not check card numbers. A duplicate number is rejected only by the unique constraint, as a `DataIntegrityViolationException` that the generic handler turns into a 500. The identity value is consumed even then.
- **Missing card in `updateCard`.** `updateCard` reports a missing card with `EntityNotFoundException`, which has no handler of its own. It therefore becomes a 500, not the 404 of `PaymentCardNotFoundException`. The message text is the same.
- **Blank filters.** The specifications treat a blank filter as absent (`StringUtils.hasText`). The derived query `findByNameAndSurnameContaining` treats only null as absent, so a blank string there is a real filter.
- **`updatedAt` in update responses.** `updateUser` and `updateCard` save an entity the transaction already manages. `save` is then a merge that returns the same object without flushing. `@LastModifiedDate` is stamped only at commit, and only when a column has changed. The response is mapped before the commit, so it carries the previous `updatedAt`. An update that changes nothing writes nothing.
- **Card limit in `createCard`.** The limit is checked twice: by the repository count, and again in `User.addPaymentCard`. The model proves that the second check never fires when the service calls it.

## Model

| member | source | states |
|---|---|---|
| Entities.UserEntity.AddPaymentCard | src/main/java/com/example/userservice/entity/User.java:63-69 | with 5 or more cards: IllegalStateException, list unchanged; otherwise the card, now owned by this user, is appended at the end; a list of at most 5 stays at most 5 |
| Entities.UserEntity.Load | src/main/java/com/example/userservice/entity/User.java:52-53 | the loaded entity carries the row and its card list |
| UserRequestDto.WithoutActive | src/main/java/com/example/userservice/dto/UserRequestDTO.java:30 | a user request that does not supply `active` has active = true |
| UserRequestDto.Violations | src/main/java/com/example/userservice/dto/UserRequestDTO.java:14-28 | the binding errors are empty exactly when the request is valid, and name only the four request fields |
| UserRequestDto.ValidHasRequiredFields | src/main/java/com/example/userservice/dto/UserRequestDTO.java:14-28 | a valid request has name, surname and email present |
| UserRequestDto.NameValidIff | src/main/java/com/example/userservice/dto/UserRequestDTO.java:14-16 | name is valid iff present, not blank, and 1 to 255 characters long |
| UserRequestDto.BirthDateTodayRefused | src/main/java/com/example/userservice/dto/UserRequestDTO.java:22-23 | `@Past` is strict: today and tomorrow are refused, yesterday accepted |
| PaymentCardRequestDto.WithoutActive | src/main/java/com/example/userservice/dto/PaymentCardRequestDTO.java:24 | a card request that does not supply `active` has active = true |
| PaymentCardRequestDto.Violations | src/main/java/com/example/userservice/dto/PaymentCardRequestDTO.java:11-22 | the binding errors are empty exactly when the request is valid, and name only the three request fields |
| PaymentCardRequestDto.NumberValidIff | src/main/java/com/example/userservice/dto/PaymentCardRequestDTO.java:11-14 | number is valid iff present, 13 to 19 characters long, and all digits 0-9 |
| PaymentCardRequestDto.ValidHasRequiredFields | src/main/java/com/example/userservice/dto/PaymentCardRequestDTO.java:11-22 | a valid request has number, holder and expiration date present |
| PaymentCardRequestDto.ExpiringTodayRefused | src/main/java/com/example/userservice/dto/PaymentCardRequestDTO.java:20-22 | `@Future` is strict: today is refused, tomorrow accepted; a missing date is refused |
| UserMapper.ToEntity | src/main/java/com/example/userservice/mapper/UserMapper.java:12-16 | id and timestamps are left unset; name, surname, birth date, email and active are copied from the request |
| UserMapper.ToDto | src/main/java/com/example/userservice/mapper/UserMapper.java:18 | every user field is copied unchanged; there is no card list |
| UserMapper.ToDtoInjective | src/main/java/com/example/userservice/mapper/UserMapper.java:18 | the projection loses nothing: equal responses come from equal rows |
| UserMapper.CreatedWithoutActiveIsActive | src/main/java/com/example/userservice/mapper/UserMapper.java:16 | a user created from a request without `active` is active |
| PaymentCardMapper.ToEntity | src/main/java/com/example/userservice/mapper/PaymentCardMapper.java:12-16 | id, owner and timestamps are left unset; number, holder, expiration date and active are copied |
| PaymentCardMapper.ToDto | src/main/java/com/example/userservice/mapper/PaymentCardMapper.java:18-19 | userId is the owner's id; the other fields are copied unchanged |
| PaymentCardMapper.ToDtoInjective | src/main/java/com/example/userservice/mapper/PaymentCardMapper.java:18-19 | equal card responses come from equal rows |
| PaymentCardMapper.AttachedCardReportsOwner | src/main/java/com/example/userservice/mapper/PaymentCardMapper.java:13-18 | a mapped card attached to user u reports userId u |
| PaymentCardMapper.CreatedWithoutActiveIsActive | src/main/java/com/example/userservice/mapper/PaymentCardMapper.java:16 | a card created from a request without `active` is active |
| UserRepository.FindById | src/main/java/com/example/userservice/service/UserService.java:61-62 | present iff the id is stored, and then it is that row |
| UserRepository.ExistsByEmail | src/main/java/com/example/userservice/repository/UserRepository.java:22 | true iff some stored user has the email |
| UserRepository.FindByEmail | src/main/java/com/example/userservice/repository/UserRepository.java:18 | present iff the email exists, and then it is a stored user with that email |
| UserRepository.FindByEmailUnique | src/main/java/com/example/userservice/repository/UserRepository.java:18 | with unique emails, the result is exactly the user holding the email |
| UserRepository.FindByActiveTrue | src/main/java/com/example/userservice/repository/UserRepository.java:20 | exactly the stored users with active = true |
| UserRepository.FindByNameAndSurnameContaining | src/main/java/com/example/userservice/repository/UserRepository.java:27-32 | exactly the stored users whose lower-cased name and surname match `%filter%` (a null filter matches all) |
| UserRepository.ContainingLiteral | src/main/java/com/example/userservice/repository/UserRepository.java:29-30 | for a filter without LIKE wildcards, the match is a case-insensitive substring test |
| UserRepository.NoFiltersFindAll | src/main/java/com/example/userservice/repository/UserRepository.java:29-30 | two null filters return every user |
| UserRepository.BlankFilterIsNotAbsent | src/main/java/com/example/userservice/repository/UserRepository.java:29 | a blank parameter is not treated as absent: every column without a space passes the null filter and fails the filter " " |
| UserRepository.FindActiveUsersBornBefore | src/main/java/com/example/userservice/repository/UserRepository.java:34-38 | exactly the stored users with the given active flag and a birth date strictly before the cut-off; null birth dates never match |
| UserRepository.BornOnCutOffExcluded | src/main/java/com/example/userservice/repository/UserRepository.java:35 | a user born on the cut-off date is excluded |
| UserRepository.UpdateActiveStatus | src/main/java/com/example/userservice/repository/UserRepository.java:40-42 | only the active field of that row changes; other rows and the id counter are unchanged |
| UserRepository.UpdateActiveStatusIdempotent | src/main/java/com/example/userservice/repository/UserRepository.java:40-42 | setting the same status twice equals setting it once |
| UserRepository.UpdateActiveStatusLastWins | src/main/java/com/example/userservice/repository/UserRepository.java:40-42 | of two status updates, the second decides |
| PaymentCardRepository.FindById | src/main/java/com/example/userservice/service/PaymentCardService.java:53 | present iff the card id is stored, and then it is that row |
| PaymentCardRepository.FindByUserId | src/main/java/com/example/userservice/repository/PaymentCardRepository.java:19 | exactly the stored cards owned by the user |
| PaymentCardRepository.FindByActiveTrue | src/main/java/com/example/userservice/repository/PaymentCardRepository.java:21 | exactly the stored cards with active = true |
| PaymentCardRepository.FindByIdAndUserId | src/main/java/com/example/userservice/repository/PaymentCardRepository.java:23 | present iff the card exists and its owner is the user |
| PaymentCardRepository.FindByUserIdAndActiveStatus | src/main/java/com/example/userservice/repository/PaymentCardRepository.java:25-27 | exactly the user's cards with the given active flag |
| PaymentCardRepository.CountCardsByUserId | src/main/java/com/example/userservice/repository/PaymentCardRepository.java:29-32 | the number of cards owned by the user, which is also the length of findByUserId |
| PaymentCardRepository.FindByNumber | src/main/java/com/example/userservice/repository/PaymentCardRepository.java:40 | present iff some card holds the number, and then it is such a stored card |
| PaymentCardRepository.FindByNumberUnique | src/main/java/com/example/userservice/repository/PaymentCardRepository.java:40 | with unique numbers, the result is exactly the card holding the number |
| PaymentCardRepository.UpdateActiveStatus | src/main/java/com/example/userservice/repository/PaymentCardRepository.java:34-36 | only the active field of that card changes |
| PaymentCardRepository.UpdateActiveStatusIdempotent | src/main/java/com/example/userservice/repository/PaymentCardRepository.java:34-36 | setting the same card status twice equals setting it once |
| Store.WithoutCardsOf | src/main/java/com/example/userservice/entity/User.java:52 | the cascade removes exactly the deleted user's cards and keeps the others unchanged |
| Store.CardLimitKept | src/main/java/com/example/userservice/service/PaymentCardService.java:41-44 | a write that grows no other user's card set and keeps this user at 5 or fewer keeps the limit for everyone |
| Store.CountAfterInsert | src/main/java/com/example/userservice/repository/PaymentCardRepository.java:29-32 | inserting a card raises its owner's count by one and leaves every other count unchanged |
| Store.Database.constructor | src/main/java/com/example/userservice/entity/User.java:34-36 | empty tables with identity values starting at 1 satisfy the constraints |
| Store.Database.SaveNewUser | src/main/java/com/example/userservice/entity/User.java:47 | a taken email fails with the unique-constraint error and stores nothing; otherwise the row is stored under the next id with both timestamps set |
| Store.Database.SaveUser | src/main/java/com/example/userservice/entity/User.java:47-61 | saving a managed user fails on an email another user holds, with no change; otherwise it returns the object itself, writes nothing when no column changed, and otherwise overwrites only that row, keeping `created_at` and stamping `updated_at` with the commit time |
| Store.Database.UpdateUserActiveStatus | src/main/java/com/example/userservice/repository/UserRepository.java:40-42 | the users table becomes the status update of the old one |
| Store.Database.DeleteUserById | src/main/java/com/example/userservice/entity/User.java:52 | the user row and all its cards are removed |
| Store.Database.SaveNewCard | src/main/java/com/example/userservice/entity/PaymentCard.java:31-32 | a taken number fails with the unique-constraint error; otherwise the card is stored under the next id |
| Store.Database.SaveCard | src/main/java/com/example/userservice/entity/PaymentCard.java:31-48 | saving a managed card fails on a number another card holds, with no change; otherwise it returns the object itself, writes nothing when no column changed, and otherwise overwrites only that card, keeping `created_at` and stamping `updated_at` with the commit time |
| Store.Database.UpdateCardActiveStatus | src/main/java/com/example/userservice/repository/PaymentCardRepository.java:34-36 | the cards table becomes the status update of the old one |
| RedisCache.RedisKey | src/main/java/com/example/userservice/config/RedisConfig.java:70 | every key starts with `user-service:` followed by the cache name, `::` and the id |
| RedisCache.RedisKeyInjective | src/main/java/com/example/userservice/config/RedisConfig.java:70 | two entries share a key only if they have the same cache and the same id |
| RedisCache.UserKeys | src/main/java/com/example/userservice/service/UserService.java:109-113 | exactly the keys of the user in the named caches |
| RedisCache.Redis.Get | src/main/java/com/example/userservice/service/UserService.java:58 | a hit iff the key is stored, with the stored value |
| RedisCache.Redis.Put | src/main/java/com/example/userservice/service/UserService.java:58 | the entry is set and nothing else changes |
| RedisCache.Redis.EvictIfPresent | src/main/java/com/example/userservice/service/CacheService.java:33 | removes the key if present; a missing key is a no-op |
| RedisCache.Redis.EvictFromCaches | src/main/java/com/example/userservice/service/UserService.java:109-113 | removes exactly the user's key in each named cache |
| RedisCache.Redis.Delete | src/main/java/com/example/userservice/service/CacheService.java:70 | removes exactly the given keys |
| RedisCache.Redis.Scan | src/main/java/com/example/userservice/service/CacheService.java:81-89 | the cursor yields exactly the stored keys with the prefix, each once |
| CacheCoherence.CardViews | src/main/java/com/example/userservice/service/UserService.java:170-171 | the user's card list, one projected card per owned card, in id order |
| CacheCoherence.UserWithCardsView | src/main/java/com/example/userservice/service/UserService.java:70-84 | copies the user's fields and attaches exactly the given card list |
| CacheCoherence.CoherentAfterRemoval | src/main/java/com/example/userservice/service/CacheService.java:22-48 | removing any entries keeps the cache coherent |
| CacheCoherence.CoherentAfterPut | src/main/java/com/example/userservice/service/UserService.java:58-87 | caching what a cached method computes from the current tables keeps coherence |
| CacheCoherence.CoherentAfterWrite | src/main/java/com/example/userservice/service/UserService.java:108-134 | a write that changes no other user's views, and evicts every view of the user it changes, keeps coherence |
| CacheCoherence.CardViewsUnchanged | src/main/java/com/example/userservice/service/UserService.java:170-171 | a user's card list depends only on the cards that user owns |
| CacheManagement.StatsOf | src/main/java/com/example/userservice/service/CacheService.java:109-126 | the three reported sets are drawn from the scanned keys and are pairwise disjoint |
| CacheManagement.BucketAdd | src/main/java/com/example/userservice/service/CacheService.java:109-126 | adding one key to the scan adds it to the one set its classification picks, or to none |
| CacheManagement.UsersSetExcludesUsersWithCards | src/main/java/com/example/userservice/service/CacheService.java:112-116 | no key in the users set contains `usersWithCards` |
| CacheManagement.TotalKeysAtMostScanned | src/main/java/com/example/userservice/service/CacheService.java:201-203 | getTotalKeys, the sum of the three set sizes, is at most the number of scanned keys |
| CacheManagement.ClassifyRedisKey | src/main/java/com/example/userservice/service/CacheService.java:112-122 | every key the cache writes is put into the set of its own cache |
| CacheManagement.CacheService.constructor | src/main/java/com/example/userservice/service/CacheService.java:19-20 | the service works on the given Redis |
| CacheManagement.CacheService.EvictUserCaches | src/main/java/com/example/userservice/service/CacheService.java:22-59 | removes the user's key from all three caches and leaves every other entry unchanged |
| CacheManagement.CacheService.ScanKeys | src/main/java/com/example/userservice/service/CacheService.java:81-93 | the set gains exactly the stored keys with the prefix |
| CacheManagement.CacheService.EvictAllUserCaches | src/main/java/com/example/userservice/service/CacheService.java:61-79 | removes exactly the keys beginning with `user-service:` and keeps all others |
| CacheManagement.CacheService.GetCacheStats | src/main/java/com/example/userservice/service/CacheService.java:95-144 | the statistics are the classification of the keys under the service prefix |
| CacheManagement.EvictUserCachesIdempotent | src/main/java/com/example/userservice/service/CacheService.java:32-48 | evicting a user's caches twice equals evicting them once |
| CacheManagement.EvictUserCachesSparesOthers | src/main/java/com/example/userservice/service/CacheService.java:22-48 | another user's entries survive the eviction |
| CacheManagement.StatsAfterClear | src/main/java/com/example/userservice/service/CacheService.java:61-79 | after clearing all user caches, the statistics are three empty sets |
| Text.LikeContains | src/main/java/com/example/userservice/specification/UserSpecifications.java:13-16 | for a pattern without wildcards, LIKE `%p%` holds iff the column contains p |
| Text.LikePrefix | src/main/java/com/example/userservice/specification/UserSpecifications.java:13-16 | for a pattern without wildcards, LIKE `p%` holds iff the column starts with p |
| Text.LikeAnything | src/main/java/com/example/userservice/specification/UserSpecifications.java:13-16 | `%` matches every string |
| Text.UnderscoreMatchesAnyCharacter | src/main/java/com/example/userservice/specification/UserSpecifications.java:13-16 | a filter of `_` is a wildcard and matches every non-empty column |
| Text.TextFilterLiteral | src/main/java/com/example/userservice/specification/UserSpecifications.java:13-16 | a non-blank filter without wildcards accepts iff the lower-cased column contains the lower-cased filter |
| Text.TextFilterIgnoresCase | src/main/java/com/example/userservice/specification/UserSpecifications.java:13-16 | lower-casing the column and the filter first changes nothing |
| Text.BlankTextFilterAcceptsAll | src/main/java/com/example/userservice/specification/UserSpecifications.java:10-12 | every filter made only of whitespace has no text and accepts every column |
| Text.LowerKeepsText | src/main/java/com/example/userservice/specification/UserSpecifications.java:10-16 | lower-casing does not change whether a string has text |
| Text.LowerIdempotent | src/main/java/com/example/userservice/specification/UserSpecifications.java:15 | lower-casing twice equals lower-casing once |
| Text.ParseNatToString | src/main/java/com/example/userservice/service/UserService.java:62 | the decimal text of an id reads back as that id |
| UserSpecifications.HasFirstName | src/main/java/com/example/userservice/specification/UserSpecifications.java:8-18 | a filter without text accepts every user; otherwise it is the case-insensitive `%name%` match |
| UserSpecifications.HasSurname | src/main/java/com/example/userservice/specification/UserSpecifications.java:20-30 | the same rule on surname |
| UserSpecifications.IsActive | src/main/java/com/example/userservice/specification/UserSpecifications.java:32-39 | null accepts every user; otherwise it accepts iff active equals the argument (a null column never does) |
| PaymentCardSpecifications.HasHolderName | src/main/java/com/example/userservice/specification/PaymentCardSpecifications.java:12-20 | a holder filter without text accepts every card; otherwise it is the case-insensitive `%holder%` match |
| PaymentCardSpecifications.IsActive | src/main/java/com/example/userservice/specification/PaymentCardSpecifications.java:22-29 | null accepts every card; otherwise it accepts iff active equals the argument |
| PaymentCardSpecifications.HasUserId | src/main/java/com/example/userservice/specification/PaymentCardSpecifications.java:31-38 | null accepts every card; otherwise it accepts iff the owner's id equals the argument |
| Tables.And | src/main/java/com/example/userservice/service/UserService.java:89-91 | `Specification.and` accepts a row iff both parts accept it |
| Tables.Query | src/main/java/com/example/userservice/service/UserService.java:93 | `findAll(spec)` returns exactly the stored rows the specification accepts |
| Tables.MapRows | src/main/java/com/example/userservice/service/UserService.java:93 | `Page.map` projects each row and keeps the order and the length |
| UserManagement.UserNotFound | src/main/java/com/example/userservice/service/UserService.java:37 | a UserNotFoundException whose message starts with `User not found with id: ` |
| UserManagement.UserNotFoundNamesId | src/main/java/com/example/userservice/service/UserService.java:62 | the message identifies the id: different ids give different errors |
| UserManagement.Created | src/main/java/com/example/userservice/service/UserService.java:51-52 | the stored user carries the request's fields, the new id, and both timestamps set to the save time |
| UserManagement.Overwritten | src/main/java/com/example/userservice/service/UserService.java:126-129 | the setters overwrite exactly name, surname, birth date and email; id, active and both timestamps are kept; the entity is unchanged iff the four fields already hold the request's values |
| UserManagement.Updated | src/main/java/com/example/userservice/service/UserService.java:126-131 | the committed row has the request's four fields with id, active and creation time kept; it is the old row when nothing changed, and otherwise `updated_at` is the commit time |
| UserManagement.UpdateResponseBeforeStamp | src/main/java/com/example/userservice/service/UserService.java:131-133 | the update response carries the previous `updatedAt`, and differs from the committed row only in it |
| UserManagement.EmailTakenByOther | src/main/java/com/example/userservice/service/UserService.java:120-121 | the update is refused iff the email changes to one that another user holds |
| UserManagement.UserService.constructor | src/main/java/com/example/userservice/service/UserService.java:39-42 | the service works on the given database and Redis |
| UserManagement.UserService.CreateUser | src/main/java/com/example/userservice/service/UserService.java:44-56 | a taken email gives DuplicateEmail and stores nothing; otherwise exactly one user is added under the next id; the cache is never touched; consistency is kept |
| UserManagement.UserService.GetUserById | src/main/java/com/example/userservice/service/UserService.java:58-64 | UserNotFound iff the id is absent (cache unchanged); otherwise the projected user, now cached under (`users`, id) |
| UserManagement.UserService.GetUserWithCardsById | src/main/java/com/example/userservice/service/UserService.java:66-87 | UserNotFound iff the id is absent; otherwise the user's fields with exactly that user's cards, cached under (`usersWithCards`, id) |
| UserManagement.UserService.GetAllUsers | src/main/java/com/example/userservice/service/UserService.java:88-94 | exactly the projected users accepted by all three specifications |
| UserManagement.UserService.GetActiveUsers | src/main/java/com/example/userservice/service/UserService.java:96-98 | exactly the projected active users |
| UserManagement.UserService.GetUsersByNameAndSurnameContaining | src/main/java/com/example/userservice/service/UserService.java:100-102 | exactly the projected users matching the derived query |
| UserManagement.UserService.GetActiveUsersBornBefore | src/main/java/com/example/userservice/service/UserService.java:104-106 | exactly the projected active users born strictly before the date; every element is the projection of a stored user |
| UserManagement.UserService.UpdateUser | src/main/java/com/example/userservice/service/UserService.java:108-134 | UserNotFound for an absent id; the email is checked only when it changes; a taken email gives DuplicateEmail with no change; otherwise only that row becomes `Updated`, the response is the overwritten entity before the commit stamp, and the user's three cache entries are evicted |
| UserManagement.UserService.GetUserEntityById | src/main/java/com/example/userservice/service/UserService.java:136-139 | succeeds iff the user exists, with a fresh entity holding that row and its cards; otherwise UserNotFound |
| UserManagement.UserService.SetActiveStatus | src/main/java/com/example/userservice/service/UserService.java:141-165 | UserNotFound with nothing changed for an absent id; otherwise only active changes and the three entries are evicted |
| UserManagement.UserService.ActivateUser | src/main/java/com/example/userservice/service/UserService.java:141-152 | succeeds iff the user exists; then only `active` of that row becomes true, the cards are untouched and the user's three cache entries are evicted; otherwise nothing changes |
| UserManagement.UserService.DeactivateUser | src/main/java/com/example/userservice/service/UserService.java:154-165 | succeeds iff the user exists; then only `active` of that row becomes false, the cards are untouched and the user's three cache entries are evicted; otherwise nothing changes |
| UserManagement.UserService.GetUserCards | src/main/java/com/example/userservice/service/UserService.java:167-172 | UserNotFound for an absent user; otherwise the user's projected cards, cached under (`userCards`, id) |
| UserManagement.UserService.GetUserByEmail | src/main/java/com/example/userservice/service/UserService.java:174-176 | present iff some user has the email, and then it is that user's projection |
| UserManagement.UserService.DeleteUser | src/main/java/com/example/userservice/service/UserService.java:178-191 | UserNotFound with nothing deleted for an absent id; otherwise the user and all its cards are removed and the three entries evicted |
| CardManagement.MissingCard | src/main/java/com/example/userservice/service/PaymentCardService.java:84-85 | updateCard's missing-card error is an EntityNotFoundException carrying the same text as PaymentCardNotFound |
| CardManagement.CreatedCard | src/main/java/com/example/userservice/service/PaymentCardService.java:46-48 | the saved card carries the request's fields and the owner's id |
| CardManagement.OverwrittenCard | src/main/java/com/example/userservice/service/PaymentCardService.java:95-97 | the setters overwrite exactly number, holder and expiration date; id, owner, active and both timestamps are kept; the card is unchanged iff the three fields already hold the request's values |
| CardManagement.UpdatedCard | src/main/java/com/example/userservice/service/PaymentCardService.java:95-99 | the committed card has the request's three fields with id, owner, active and creation time kept; it is the old card when nothing changed, and otherwise `updated_at` is the commit time |
| CardManagement.UpdateCardResponseBeforeStamp | src/main/java/com/example/userservice/service/PaymentCardService.java:99-100 | the update response carries the previous `updatedAt`, and differs from the committed card only in it |
| CardManagement.OtherCardListsUnchanged | src/main/java/com/example/userservice/service/PaymentCardService.java:34-37 | a card write confined to the owner's cards leaves every other user's card list and count unchanged |
| CardManagement.OnlyCardViewsDependOnCards | src/main/java/com/example/userservice/service/PaymentCardService.java:34-37 | the `users` entry does not depend on the card table |
| CardManagement.CardOverwriteKeepsConsistency | src/main/java/com/example/userservice/service/PaymentCardService.java:78-101 | overwriting one of the owner's cards and evicting the owner's card views keeps the card limit and coherence |
| CardManagement.CardInsertKeepsConsistency | src/main/java/com/example/userservice/service/PaymentCardService.java:33-50 | inserting a card for an owner below the limit, then evicting `userCards` and `usersWithCards`, keeps the limit and coherence |
| CardManagement.SequenceStepKeepsConsistency | src/main/java/com/example/userservice/service/PaymentCardService.java:48 | a failed insert that only consumes an identity value keeps the limit and coherence |
| CardManagement.PaymentCardService.constructor | src/main/java/com/example/userservice/service/PaymentCardService.java:27-31 | the service shares the database and Redis with the user and cache services |
| CardManagement.PaymentCardService.CreateCard | src/main/java/com/example/userservice/service/PaymentCardService.java:33-50 | UserNotFound for an absent user; CardLimitExceeded at 5 or more cards with nothing saved; the in-entity limit error never surfaces; a duplicate number gives the unique-constraint error; otherwise exactly one card owned by the user is added and only that user's `userCards` and `usersWithCards` entries are evicted |
| CardManagement.PaymentCardService.GetCardById | src/main/java/com/example/userservice/service/PaymentCardService.java:52-56 | succeeds iff the card exists, with its projection; otherwise PaymentCardNotFound |
| CardManagement.PaymentCardService.GetAllCards | src/main/java/com/example/userservice/service/PaymentCardService.java:58-64 | exactly the projected cards accepted by all three specifications |
| CardManagement.PaymentCardService.GetActiveCards | src/main/java/com/example/userservice/service/PaymentCardService.java:66-68 | exactly the projected active cards; every element is the projection of a stored card |
| CardManagement.PaymentCardService.GetAllCardsByUserId | src/main/java/com/example/userservice/service/PaymentCardService.java:70-72 | exactly the user's projected cards, as many as countCardsByUserId; every element is the projection of a stored card |
| CardManagement.PaymentCardService.GetActiveCardsByUserId | src/main/java/com/example/userservice/service/PaymentCardService.java:74-76 | exactly the user's projected active cards; every element is the projection of a stored card |
| CardManagement.PaymentCardService.UpdateCard | src/main/java/com/example/userservice/service/PaymentCardService.java:78-101 | EntityNotFoundException for an absent card; DuplicateCardNumber with no change iff the number changes to one another card holds; otherwise only that card becomes `UpdatedCard`, the response is the overwritten card before the commit stamp, and the owner's card views are evicted |
| CardManagement.PaymentCardService.GetCardEntityById | src/main/java/com/example/userservice/service/PaymentCardService.java:129-132 | succeeds iff the card exists; otherwise PaymentCardNotFound |
| CardManagement.PaymentCardService.SetCardActiveStatus | src/main/java/com/example/userservice/service/PaymentCardService.java:103-115 | PaymentCardNotFound with nothing changed for an absent card; otherwise only active changes and all three entries of the owner are evicted |
| CardManagement.PaymentCardService.ActivateCard | src/main/java/com/example/userservice/service/PaymentCardService.java:103-108 | succeeds iff the card exists; then only `active` of that card becomes true, the users are untouched and the owner's three cache entries are evicted; otherwise nothing changes |
| CardManagement.PaymentCardService.DeactivateCard | src/main/java/com/example/userservice/service/PaymentCardService.java:110-115 | succeeds iff the card exists; then only `active` of that card becomes false, the users are untouched and the owner's three cache entries are evicted; otherwise nothing changes |
| CardManagement.PaymentCardService.GetCardByUserAndId | src/main/java/com/example/userservice/service/PaymentCardService.java:117-121 | succeeds iff the card exists and belongs to the user; otherwise PaymentCardNotFound naming both ids |
| CardManagement.PaymentCardService.GetCardByNumber | src/main/java/com/example/userservice/service/PaymentCardService.java:123-127 | succeeds iff some card holds the number, with that card's projection; otherwise PaymentCardNotFound |
| GlobalExceptionHandler.FieldMap | src/main/java/com/example/userservice/exception/GlobalExceptionHandler.java:66-74 | the map's keys are exactly the fields that have a binding error |
| GlobalExceptionHandler.FieldMapLastWins | src/main/java/com/example/userservice/exception/GlobalExceptionHandler.java:73 | a field reports the message of its last binding error |
| GlobalExceptionHandler.HandleValidationExceptions | src/main/java/com/example/userservice/exception/GlobalExceptionHandler.java:62-76 | the loop of `put` calls builds the field map; the status is 400 |
| GlobalExceptionHandler.Handle | src/main/java/com/example/userservice/exception/GlobalExceptionHandler.java:19-119 | 404 iff a not-found exception, 409 iff a duplicate, 400 iff a limit, validation, illegal-argument, illegal-state or constraint error, 500 otherwise; handled errors keep their message, the generic one prefixes it; a constraint violation answers with its first violation as `path: message`, or "Validation failed" when there is none; a binding failure answers with its field map |
| GlobalExceptionHandler.InvalidUserRequestAnswer | src/main/java/com/example/userservice/exception/GlobalExceptionHandler.java:62-76 | an invalid user request is answered 400 with a non-empty map keyed only by request fields |
| GlobalExceptionHandler.InvalidCardRequestAnswer | src/main/java/com/example/userservice/exception/GlobalExceptionHandler.java:62-76 | an invalid card request is answered 400 with a non-empty map keyed only by request fields |

## Left out

- Concurrency and transactions: every service call is one atomic step. The five-card limit is proved only for sequential execution, not for two concurrent `createCard` calls.
- HTTP controllers, routing and `@Positive` path checks. `PaymentCardController` calls a `deleteCard` that the service does not have, so there is nothing to model for it.
- JSON serialisation and the Redis and Jackson configuration. Only the key shape (prefix, cache name, `::`, id) is kept; the one-hour TTL is not.
- TTL expiry itself: it is wall-clock behaviour. `CacheCoherence.CoherentAfterRemoval` shows that losing entries never breaks coherence.
- The SCAN cursor: the scan is modelled as yielding each key with the prefix once, in an order the server chooses.
- Pagination and sorting: queries return the whole filtered collection in ascending id order.
- Audit timestamps: they are a clock parameter `now`, and `ErrorResponse` carries no timestamp.
- Logging throughout, including `logCurrentCacheState`: it only logs what `getCacheStats` returns.
- Redis failures, and the try/catch blocks that log them: the eviction methods have no error outcome, so none can propagate.
- The `@Email` check: a library regex, kept as a predicate parameter.
- Unicode `toLowerCase`: lower-casing is ASCII only. Java string lengths are in UTF-16 units, while the model counts characters.
- The private constructor of `PaymentCardSpecifications`: a Dafny module has no instances.
- The text of `DataIntegrityViolationException`: it comes from the database driver and is a fixed constant here.
- The order of errors: the binding errors and constraint violations are sequences in a fixed order. In the source they come from a set, whose iteration order is unspecified.
- The exception classes are not part of this model. Each is a datatype variant carrying its message.
- `findByIdWithCards`: no core operation calls it.
- A card without an owner: the `user_id` column is nullable, but the model requires every card to have an owner, because no service operation can store an ownerless card.
- A null or blank `email` on a stored user: the service only stores users that passed validation.
