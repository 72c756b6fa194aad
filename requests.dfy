/**
 * The request bodies and their Bean Validation constraints, as predicates over
 * a request and the validating clock's `today`. Constraints other than
 * `@NotBlank` and `@NotNull` accept a null value.
 */
module UserRequestDto {
  import opened Common
  import opened Text
  import opened Exceptions

  datatype UserRequest = UserRequest(
    name: Option<string>,
    surname: Option<string>,
    birthDate: Option<Date>,
    email: Option<string>,
    active: Option<bool>)

  /** The request bound from a JSON body that has no `active` property: the field keeps its initialiser, `true`. */
  function WithoutActive(name: Option<string>, surname: Option<string>, birthDate: Option<Date>, email: Option<string>): (r: UserRequest)
    ensures r.active == Some(true)
  {
    UserRequest(name, surname, birthDate, email, Some(true))
  }

  /** `@Size(min, max)`. */
  predicate SizeWithin(s: Option<string>, min: nat, max: nat) {
    s.None? || min <= |s.value| <= max
  }

  /** `@Past`: strictly before today. */
  predicate IsPast(d: Option<Date>, today: Date) {
    d.None? || d.value < today
  }

  /** `@Email`: the empty string passes; `isEmail` stands for the validator's address syntax check. */
  predicate IsEmail(e: Option<string>, isEmail: string -> bool) {
    e.None? || e.value == [] || isEmail(e.value)
  }

  predicate NameValid(name: Option<string>) {
    NotBlank(name) && SizeWithin(name, 1, 255)
  }

  predicate EmailValid(email: Option<string>, isEmail: string -> bool) {
    NotBlank(email) && IsEmail(email, isEmail) && SizeWithin(email, 0, 255)
  }

  /** The request passes `@Valid`. */
  predicate IsValid(r: UserRequest, today: Date, isEmail: string -> bool) {
    NameValid(r.name) && NameValid(r.surname) && IsPast(r.birthDate, today) && EmailValid(r.email, isEmail)
  }

  /** What the service relies on: the fields stored in non-null columns are present. */
  predicate HasRequiredFields(r: UserRequest) {
    r.name.Some? && r.surname.Some? && r.email.Some?
  }

  function Check(ok: bool, field: string, message: string): seq<FieldError> {
    if ok then [] else [FieldError(field, message)]
  }

  /**
   * The field errors the validator reports, with the messages the annotations
   * declare, listed in declaration order.
   */
  function Violations(r: UserRequest, today: Date, isEmail: string -> bool): (errors: seq<FieldError>)
    ensures errors == [] <==> IsValid(r, today, isEmail)
    ensures forall e :: e in errors ==> e.field in {"name", "surname", "birthDate", "email"}
  {
    Check(NotBlank(r.name), "name", "Name is mandatory")
    + Check(SizeWithin(r.name, 1, 255), "name", "Name must be between 1 and 255 characters")
    + Check(NotBlank(r.surname), "surname", "Surname is mandatory")
    + Check(SizeWithin(r.surname, 1, 255), "surname", "Surname must be between 1 and 255 characters")
    + Check(IsPast(r.birthDate, today), "birthDate", "Birth date must be in the past")
    + Check(NotBlank(r.email), "email", "Email is mandatory")
    + Check(IsEmail(r.email, isEmail), "email", "Email should be valid")
    + Check(SizeWithin(r.email, 0, 255), "email", "Email must not exceed 255 characters")
  }

  /** A valid request carries every field the service stores in a non-null column. */
  lemma ValidHasRequiredFields(r: UserRequest, today: Date, isEmail: string -> bool)
    requires IsValid(r, today, isEmail)
    ensures HasRequiredFields(r)
  {
  }

  /** A name is accepted exactly when it is present, has a character above U+0020 and is at most 255 long. */
  lemma NameValidIff(name: Option<string>)
    ensures NameValid(name) <==>
      name.Some? && |name.value| <= 255 && exists i :: 0 <= i < |name.value| && name.value[i] > ' '
  {
  }

  /** `@Past` is strict: today and tomorrow are both refused. */
  lemma BirthDateTodayRefused(today: Date)
    ensures !IsPast(Some(today), today) && !IsPast(Some(today + 1), today) && IsPast(Some(today - 1), today)
  {
  }
}

module PaymentCardRequestDto {
  import opened Common
  import opened Text
  import opened Exceptions

  datatype PaymentCardRequest = PaymentCardRequest(
    number: Option<string>,
    holder: Option<string>,
    expirationDate: Option<Date>,
    active: Option<bool>)

  /** The request bound from a JSON body that has no `active` property. */
  function WithoutActive(number: Option<string>, holder: Option<string>, expirationDate: Option<Date>): (r: PaymentCardRequest)
    ensures r.active == Some(true)
  {
    PaymentCardRequest(number, holder, expirationDate, Some(true))
  }

  predicate SizeWithin(s: Option<string>, min: nat, max: nat) {
    s.None? || min <= |s.value| <= max
  }

  /** `@Pattern(regexp = "^[0-9]+$")`. */
  predicate OnlyDigits(s: Option<string>) {
    s.None? || (|s.value| >= 1 && AllDigits(s.value))
  }

  /** `@Future`: strictly after today. */
  predicate IsFuture(d: Option<Date>, today: Date) {
    d.None? || d.value > today
  }

  predicate NumberValid(number: Option<string>) {
    NotBlank(number) && SizeWithin(number, 13, 19) && OnlyDigits(number)
  }

  predicate HolderValid(holder: Option<string>) {
    NotBlank(holder) && SizeWithin(holder, 1, 255)
  }

  predicate ExpirationValid(d: Option<Date>, today: Date) {
    d.Some? && IsFuture(d, today)
  }

  predicate IsValid(r: PaymentCardRequest, today: Date) {
    NumberValid(r.number) && HolderValid(r.holder) && ExpirationValid(r.expirationDate, today)
  }

  /** What the service relies on: number, holder and expiration date are present. */
  predicate HasRequiredFields(r: PaymentCardRequest) {
    r.number.Some? && r.holder.Some? && r.expirationDate.Some?
  }

  function Check(ok: bool, field: string, message: string): seq<FieldError> {
    if ok then [] else [FieldError(field, message)]
  }

  function Violations(r: PaymentCardRequest, today: Date): (errors: seq<FieldError>)
    ensures errors == [] <==> IsValid(r, today)
    ensures forall e :: e in errors ==> e.field in {"number", "holder", "expirationDate"}
  {
    Check(NotBlank(r.number), "number", "Card number is mandatory")
    + Check(SizeWithin(r.number, 13, 19), "number", "Card number must be between 13 and 19 digits")
    + Check(OnlyDigits(r.number), "number", "Card number must contain only digits")
    + Check(NotBlank(r.holder), "holder", "Card holder is mandatory")
    + Check(SizeWithin(r.holder, 1, 255), "holder", "Card holder name must be between 1 and 255 characters")
    + Check(r.expirationDate.Some?, "expirationDate", "Expiration date is mandatory")
    + Check(IsFuture(r.expirationDate, today), "expirationDate", "Expiration date must be in the future")
  }

  /**
   * A number is accepted exactly when it is 13 to 19 characters, all of them
   * ASCII digits (a digit string is never blank).
   */
  lemma NumberValidIff(number: Option<string>)
    ensures NumberValid(number) <==> number.Some? && 13 <= |number.value| <= 19 && AllDigits(number.value)
  {
    if number.Some? && 13 <= |number.value| <= 19 && AllDigits(number.value) {
      assert number.value[0] > ' ';
    }
  }

  lemma ValidHasRequiredFields(r: PaymentCardRequest, today: Date)
    requires IsValid(r, today)
    ensures HasRequiredFields(r)
  {
  }

  /** `@Future` is strict: a card expiring today is refused. */
  lemma ExpiringTodayRefused(today: Date)
    ensures !ExpirationValid(Some(today), today) && ExpirationValid(Some(today + 1), today)
    ensures !ExpirationValid(None, today)
  {
  }
}
