/**
 * The two persistent entities. A row of either table is a value; the `User`
 * entity as loaded into the persistence context, with its lazily loaded card
 * list, is the object `UserEntity`, whose `AddPaymentCard` guards the limit.
 */
module Entities {
  import opened Common
  import opened Exceptions

  /** The most cards one user may hold, checked in `User.addPaymentCard` and in `createCard`. */
  const MaxCardsPerUser: nat := 5

  const CardLimitMessage: string := "User cannot have more than 5 payment cards"

  /**
   * A row of `users`. `id` and the audit timestamps are null until the row is
   * saved; `active` is a nullable `Boolean` whose field initialiser is `true`.
   * `email` is unique across the table (a database constraint).
   */
  datatype User = User(
    id: Option<UserId>,
    name: string,
    surname: string,
    birthDate: Option<Date>,
    email: string,
    active: Option<bool>,
    createdAt: Option<Timestamp>,
    updatedAt: Option<Timestamp>)

  /**
   * A row of `payment_cards`. `owner` is the id of the `user` it references
   * (the many-to-one back-reference); `number` is non-null and unique,
   * `holder` and `expirationDate` are non-null.
   */
  datatype PaymentCard = PaymentCard(
    id: Option<CardId>,
    owner: Option<UserId>,
    number: string,
    holder: string,
    expirationDate: Date,
    active: Option<bool>,
    createdAt: Option<Timestamp>,
    updatedAt: Option<Timestamp>)

  /** The value `active` takes in a fresh `User` or `PaymentCard` object before anything is copied into it. */
  const DefaultActive: Option<bool> := Some(true)

  /** A managed `User` entity: its columns and its `paymentCards` collection (mapped by `PaymentCard.user`). */
  class UserEntity {
    var user: User
    var paymentCards: seq<PaymentCard>

    constructor Load(row: User, cards: seq<PaymentCard>)
      ensures user == row && paymentCards == cards
    {
      user := row;
      paymentCards := cards;
    }

    /**
     * `addPaymentCard`: refuses a sixth card with `IllegalStateException`;
     * otherwise appends the card, whose `user` now refers to this user.
     */
    method AddPaymentCard(card: PaymentCard) returns (r: Result<PaymentCard>)
      modifies this
      ensures user == old(user)
      ensures |old(paymentCards)| >= MaxCardsPerUser ==>
        r == Err(IllegalStateException(CardLimitMessage)) && paymentCards == old(paymentCards)
      ensures |old(paymentCards)| < MaxCardsPerUser ==>
        && r == Ok(card.(owner := user.id))
        && paymentCards == old(paymentCards) + [card.(owner := user.id)]
      ensures |old(paymentCards)| <= MaxCardsPerUser ==> |paymentCards| <= MaxCardsPerUser
    {
      if |paymentCards| >= MaxCardsPerUser {
        return Err(IllegalStateException(CardLimitMessage));
      }
      var attached := card.(owner := user.id);
      paymentCards := paymentCards + [attached];
      r := Ok(attached);
    }
  }
}
