/** The generated field-copy projections between request bodies, rows and response bodies. */
module UserMapper {
  import opened Common
  import opened Entities
  import opened UserRequestDto
  import opened Responses

  /**
   * `toEntity`: copies the request's fields, `active` included (a null
   * `active` stays null); id, timestamps and cards are left unset.
   */
  function ToEntity(r: UserRequest): (u: User)
    requires HasRequiredFields(r)
    ensures u.id.None? && u.createdAt.None? && u.updatedAt.None?
    ensures u.name == r.name.value && u.surname == r.surname.value && u.birthDate == r.birthDate
    ensures u.email == r.email.value && u.active == r.active
  {
    User(None, r.name.value, r.surname.value, r.birthDate, r.email.value, r.active, None, None)
  }

  /** `toDTO`: every column copied unchanged. */
  function ToDto(u: User): (d: UserResponse)
    ensures d.id == u.id && d.name == u.name && d.surname == u.surname && d.birthDate == u.birthDate
    ensures d.email == u.email && d.active == u.active
    ensures d.createdAt == u.createdAt && d.updatedAt == u.updatedAt
  {
    UserResponse(u.id, u.name, u.surname, u.birthDate, u.email, u.active, u.createdAt, u.updatedAt)
  }

  /** The response determines the row: `ToDto` loses nothing. */
  lemma ToDtoInjective(u: User, v: User)
    requires ToDto(u) == ToDto(v)
    ensures u == v
  {
  }

  /** A user created from a body that leaves out `active` is active. */
  lemma CreatedWithoutActiveIsActive(name: string, surname: string, birthDate: Option<Date>, email: string)
    ensures ToEntity(WithoutActive(Some(name), Some(surname), birthDate, Some(email))).active == Some(true)
  {
  }
}

module PaymentCardMapper {
  import opened Common
  import opened Entities
  import opened PaymentCardRequestDto
  import opened Responses

  /** `toEntity`: copies number, holder, expiration date and `active`; id, owner and timestamps are left unset. */
  function ToEntity(r: PaymentCardRequest): (c: PaymentCard)
    requires HasRequiredFields(r)
    ensures c.id.None? && c.owner.None? && c.createdAt.None? && c.updatedAt.None?
    ensures c.number == r.number.value && c.holder == r.holder.value
    ensures c.expirationDate == r.expirationDate.value && c.active == r.active
  {
    PaymentCard(None, None, r.number.value, r.holder.value, r.expirationDate.value, r.active, None, None)
  }

  /** `toDTO`: `userId` is the owning user's id; every other column is copied. */
  function ToDto(c: PaymentCard): (d: PaymentCardResponse)
    ensures d.userId == c.owner
    ensures d.id == c.id && d.number == c.number && d.holder == c.holder
    ensures d.expirationDate == c.expirationDate && d.active == c.active
    ensures d.createdAt == c.createdAt && d.updatedAt == c.updatedAt
  {
    PaymentCardResponse(c.id, c.owner, c.number, c.holder, c.expirationDate, c.active, c.createdAt, c.updatedAt)
  }

  lemma ToDtoInjective(c: PaymentCard, e: PaymentCard)
    requires ToDto(c) == ToDto(e)
    ensures c == e
  {
  }

  /** The response of a card mapped from a request and then attached to user `u` reports `u` as its owner. */
  lemma AttachedCardReportsOwner(r: PaymentCardRequest, u: UserId)
    requires HasRequiredFields(r)
    ensures ToDto(ToEntity(r).(owner := Some(u))).userId == Some(u)
  {
  }

  /** A card created from a body that leaves out `active` is active. */
  lemma CreatedWithoutActiveIsActive(number: string, holder: string, expirationDate: Date)
    ensures ToEntity(WithoutActive(Some(number), Some(holder), Some(expirationDate))).active == Some(true)
  {
  }
}
