/**
 * The relational store behind both repositories: the `users` and
 * `payment_cards` tables, the constraints the schema declares (identity
 * keys, unique email, unique non-null card number, the `user_id` foreign key)
 * and the writes `save`, `deleteById` and the two bulk `updateActiveStatus`
 * statements perform. A failed statement changes no row.
 */
module Store {
  import opened Common
  import opened Tables
  import opened Exceptions
  import opened Entities
  import UserRepository
  import PaymentCardRepository

  /** The database's report of a unique-constraint violation. */
  const UniqueViolation: string := "duplicate key value violates unique constraint"

  /** Every stored user carries its own id; no two users share an email. */
  predicate UsersWellFormed(users: Table<User>) {
    && (forall k :: k in users.rows ==> users.rows[k].id == Some(k))
    && UserRepository.EmailUnique(users)
  }

  /** Every stored card carries its own id and references a stored user; no two cards share a number. */
  predicate CardsWellFormed(users: Table<User>, cards: Table<PaymentCard>) {
    && (forall k :: k in cards.rows ==> cards.rows[k].id == Some(k))
    && (forall k :: k in cards.rows ==> cards.rows[k].owner.Some? && cards.rows[k].owner.value in users.rows)
    && PaymentCardRepository.NumberUnique(cards)
  }

  /** The cards left once every card of user `id` is removed. */
  function WithoutCardsOf(cards: Table<PaymentCard>, id: UserId): (t: Table<PaymentCard>)
    ensures t.next == cards.next
    ensures forall k :: k in t.rows <==> k in cards.rows && cards.rows[k].owner != Some(id)
    ensures forall k :: k in t.rows ==> t.rows[k] == cards.rows[k]
  {
    TableData(map k | k in cards.rows && cards.rows[k].owner != Some(id) :: cards.rows[k], cards.next)
  }

  /** No user holds more than `MaxCardsPerUser` cards: the limit `createCard` checks before every insert. */
  ghost predicate CardLimitRespected(cards: Table<PaymentCard>) {
    forall u :: PaymentCardRepository.CountCardsByUserId(cards, u) <= MaxCardsPerUser
  }

  /**
   * A change to the card table that gives no user other than `u` a card it
   * did not have, and leaves `u` within the limit, keeps the limit.
   */
  lemma CardLimitKept(cards: Table<PaymentCard>, cards': Table<PaymentCard>, u: UserId)
    requires CardLimitRespected(cards)
    requires forall v :: v != u ==> PaymentCardRepository.IdsOwnedBy(cards', v) <= PaymentCardRepository.IdsOwnedBy(cards, v)
    requires PaymentCardRepository.CountCardsByUserId(cards', u) <= MaxCardsPerUser
    ensures CardLimitRespected(cards')
  {
    forall v
      ensures PaymentCardRepository.CountCardsByUserId(cards', v) <= MaxCardsPerUser
    {
      if v != u {
        SubsetSize(PaymentCardRepository.IdsOwnedBy(cards', v), PaymentCardRepository.IdsOwnedBy(cards, v));
        assert PaymentCardRepository.CountCardsByUserId(cards, v) <= MaxCardsPerUser;
      }
    }
  }

  /** Inserting one card under a fresh id adds exactly that card to its owner's count. */
  lemma CountAfterInsert(cards: Table<PaymentCard>, c: PaymentCard, u: UserId)
    requires cards.next !in cards.rows
    ensures PaymentCardRepository.IdsOwnedBy(TableData(cards.rows[cards.next := c], cards.next + 1), u) ==
      PaymentCardRepository.IdsOwnedBy(cards, u) + (if c.owner == Some(u) then {cards.next} else {})
    ensures PaymentCardRepository.CountCardsByUserId(TableData(cards.rows[cards.next := c], cards.next + 1), u) ==
      PaymentCardRepository.CountCardsByUserId(cards, u) + (if c.owner == Some(u) then 1 else 0)
  {
  }

  class Database {
    var users: Table<User>
    var cards: Table<PaymentCard>

    /** Both tables empty; both identity sequences start at 1. */
    constructor ()
      ensures users == TableData(map[], 1) && cards == TableData(map[], 1)
      ensures Valid()
    {
      users := TableData(map[], 1);
      cards := TableData(map[], 1);
    }

    ghost predicate Valid()
      reads this
    {
      UsersWellFormed(users) && CardsWellFormed(users, cards)
    }

    /**
     * `save` of a new user: an `INSERT` that takes the next identity value
     * and stamps both audit columns with `now`. The identity value is used
     * up even when the unique constraint on `email` rejects the row.
     */
    method SaveNewUser(u: User, now: Timestamp) returns (r: Result<User>)
      requires Valid()
      modifies this
      ensures Valid()
      ensures cards == old(cards) && users.next == old(users.next) + 1
      ensures UserRepository.ExistsByEmail(old(users), u.email) ==>
        r == Err(DataIntegrityViolationException(UniqueViolation)) && users.rows == old(users.rows)
      ensures !UserRepository.ExistsByEmail(old(users), u.email) ==>
        && r == Ok(u.(id := Some(old(users.next)), createdAt := Some(now), updatedAt := Some(now)))
        && users.rows == old(users.rows)[old(users.next) := r.value]
    {
      var id := users.next;
      if UserRepository.ExistsByEmail(users, u.email) {
        users := TableData(users.rows, id + 1);
        return Err(DataIntegrityViolationException(UniqueViolation));
      }
      var saved := u.(id := Some(id), createdAt := Some(now), updatedAt := Some(now));
      users := TableData(users.rows[id := saved], id + 1);
      r := Ok(saved);
    }

    /**
     * `save` of a user loaded in the same transaction: a `merge` that hands
     * back the managed object `u` as it is in memory. The `UPDATE` runs when
     * the transaction commits, and only if dirty checking finds `u` changed;
     * then the auditing listener stamps `updated_at` with `now` and
     * `created_at`, not updatable, keeps its stored value.
     */
    method SaveUser(id: UserId, u: User, now: Timestamp) returns (r: Result<User>)
      requires Valid() && id in users.rows && u.id == Some(id)
      modifies this
      ensures Valid()
      ensures cards == old(cards) && users.next == old(users.next)
      ensures (exists k :: k in old(users.rows) && k != id && old(users.rows)[k].email == u.email) ==>
        r == Err(DataIntegrityViolationException(UniqueViolation)) && users == old(users)
      ensures !(exists k :: k in old(users.rows) && k != id && old(users.rows)[k].email == u.email) ==>
        && r == Ok(u)
        && (u == old(users.rows)[id] ==> users == old(users))
        && (u != old(users.rows)[id] ==>
              users.rows == old(users.rows)[id := u.(createdAt := old(users.rows)[id].createdAt, updatedAt := Some(now))])
    {
      if exists k :: k in users.rows && k != id && users.rows[k].email == u.email {
        return Err(DataIntegrityViolationException(UniqueViolation));
      }
      if u != users.rows[id] {
        var flushed := u.(createdAt := users.rows[id].createdAt, updatedAt := Some(now));
        users := TableData(users.rows[id := flushed], users.next);
      }
      r := Ok(u);
    }

    /** `UserRepository.updateActiveStatus`: a bulk `UPDATE` of the `active` column of one row. */
    method UpdateUserActiveStatus(id: UserId, a: bool)
      requires Valid()
      modifies this
      ensures Valid()
      ensures users == UserRepository.UpdateActiveStatus(old(users), id, a) && cards == old(cards)
    {
      users := UserRepository.UpdateActiveStatus(users, id, a);
    }

    /**
     * `deleteById` of a user: the user's cards go first (the card collection
     * cascades removal), then the user; a missing id deletes nothing.
     */
    method DeleteUserById(id: UserId)
      requires Valid()
      modifies this
      ensures Valid()
      ensures users == TableData(old(users).rows - {id}, old(users).next)
      ensures cards == WithoutCardsOf(old(cards), id)
    {
      if id in users.rows {
        cards := WithoutCardsOf(cards, id);
        users := TableData(users.rows - {id}, users.next);
      }
      else {
        assert cards.rows == WithoutCardsOf(cards, id).rows;
        users := TableData(users.rows - {id}, users.next);
      }
    }

    /**
     * `save` of a new card attached to a stored user: an `INSERT` under the
     * next identity value with both audit columns `now`; the unique
     * constraint on `number` rejects a number already stored.
     */
    method SaveNewCard(c: PaymentCard, now: Timestamp) returns (r: Result<PaymentCard>)
      requires Valid() && c.owner.Some? && c.owner.value in users.rows
      modifies this
      ensures Valid()
      ensures users == old(users) && cards.next == old(cards.next) + 1
      ensures (exists k :: k in old(cards.rows) && old(cards.rows)[k].number == c.number) ==>
        r == Err(DataIntegrityViolationException(UniqueViolation)) && cards.rows == old(cards.rows)
      ensures !(exists k :: k in old(cards.rows) && old(cards.rows)[k].number == c.number) ==>
        && r == Ok(c.(id := Some(old(cards.next)), createdAt := Some(now), updatedAt := Some(now)))
        && cards.rows == old(cards.rows)[old(cards.next) := r.value]
    {
      var id := cards.next;
      if exists k :: k in cards.rows && cards.rows[k].number == c.number {
        cards := TableData(cards.rows, id + 1);
        return Err(DataIntegrityViolationException(UniqueViolation));
      }
      var saved := c.(id := Some(id), createdAt := Some(now), updatedAt := Some(now));
      cards := TableData(cards.rows[id := saved], id + 1);
      r := Ok(saved);
    }

    /**
     * `save` of a card loaded in the same transaction: hands back the managed
     * object `c`; at commit, a changed card is written with `updated_at`
     * stamped `now` and its stored `created_at`, an unchanged one is not.
     */
    method SaveCard(id: CardId, c: PaymentCard, now: Timestamp) returns (r: Result<PaymentCard>)
      requires Valid() && id in cards.rows && c.id == Some(id) && c.owner == cards.rows[id].owner
      modifies this
      ensures Valid()
      ensures users == old(users) && cards.next == old(cards.next)
      ensures (exists k :: k in old(cards.rows) && k != id && old(cards.rows)[k].number == c.number) ==>
        r == Err(DataIntegrityViolationException(UniqueViolation)) && cards == old(cards)
      ensures !(exists k :: k in old(cards.rows) && k != id && old(cards.rows)[k].number == c.number) ==>
        && r == Ok(c)
        && (c == old(cards.rows)[id] ==> cards == old(cards))
        && (c != old(cards.rows)[id] ==>
              cards.rows == old(cards.rows)[id := c.(createdAt := old(cards.rows)[id].createdAt, updatedAt := Some(now))])
    {
      if exists k :: k in cards.rows && k != id && cards.rows[k].number == c.number {
        return Err(DataIntegrityViolationException(UniqueViolation));
      }
      if c != cards.rows[id] {
        var flushed := c.(createdAt := cards.rows[id].createdAt, updatedAt := Some(now));
        cards := TableData(cards.rows[id := flushed], cards.next);
      }
      r := Ok(c);
    }

    /** `PaymentCardRepository.updateActiveStatus`: a bulk `UPDATE` of the `active` column of one card. */
    method UpdateCardActiveStatus(id: CardId, a: bool)
      requires Valid()
      modifies this
      ensures Valid()
      ensures cards == PaymentCardRepository.UpdateActiveStatus(old(cards), id, a) && users == old(users)
    {
      cards := PaymentCardRepository.UpdateActiveStatus(cards, id, a);
    }
  }
}
