/**
 * The dynamic filters of `getAllUsers`, as predicates on `users` rows. Each
 * filter left out (a null parameter, or a name without text) accepts every row.
 */
module UserSpecifications {
  import opened Common
  import opened Text
  import opened Entities

  /** `hasFirstName`: the text filter on the `name` column. */
  function HasFirstName(name: Option<string>): (spec: User -> bool)
    ensures !HasText(name) ==> forall u :: spec(u)
    ensures forall u :: spec(u) <==> TextFilter(u.name, name)
  {
    (u: User) => TextFilter(u.name, name)
  }

  /** `hasSurname`: the text filter on the `surname` column. */
  function HasSurname(surname: Option<string>): (spec: User -> bool)
    ensures !HasText(surname) ==> forall u :: spec(u)
    ensures forall u :: spec(u) <==> TextFilter(u.surname, surname)
  {
    (u: User) => TextFilter(u.surname, surname)
  }

  /** `isActive`: null accepts every row; otherwise SQL equality, which a null column never satisfies. */
  function IsActive(active: Option<bool>): (spec: User -> bool)
    ensures active.None? ==> forall u :: spec(u)
    ensures active.Some? ==> forall u :: spec(u) <==> u.active == active
    ensures forall u: User :: u.active.None? && active.Some? ==> !spec(u)
  {
    (u: User) => active.None? || u.active == active
  }
}

/**
 * The dynamic filters of `getAllCards`, as predicates on `payment_cards`
 * rows. The class itself only holds these factories.
 */
module PaymentCardSpecifications {
  import opened Common
  import opened Text
  import opened Entities

  /** `hasHolderName`: the text filter on the `holder` column. */
  function HasHolderName(holder: Option<string>): (spec: PaymentCard -> bool)
    ensures !HasText(holder) ==> forall c :: spec(c)
    ensures forall c :: spec(c) <==> TextFilter(c.holder, holder)
  {
    (c: PaymentCard) => TextFilter(c.holder, holder)
  }

  /** `isActive`: null accepts every card; otherwise SQL equality on `active`. */
  function IsActive(active: Option<bool>): (spec: PaymentCard -> bool)
    ensures active.None? ==> forall c :: spec(c)
    ensures active.Some? ==> forall c :: spec(c) <==> c.active == active
    ensures forall c: PaymentCard :: c.active.None? && active.Some? ==> !spec(c)
  {
    (c: PaymentCard) => active.None? || c.active == active
  }

  /** `hasUserId`: null accepts every card; otherwise the card's `user_id` must equal it. */
  function HasUserId(userId: Option<UserId>): (spec: PaymentCard -> bool)
    ensures userId.None? ==> forall c :: spec(c)
    ensures userId.Some? ==> forall c :: spec(c) <==> c.owner == userId
  {
    (c: PaymentCard) => userId.None? || c.owner == userId
  }
}
