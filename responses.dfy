/** The response bodies: plain field bags, cached as they are. */
module Responses {
  import opened Common

  datatype UserResponse = UserResponse(
    id: Option<UserId>,
    name: string,
    surname: string,
    birthDate: Option<Date>,
    email: string,
    active: Option<bool>,
    createdAt: Option<Timestamp>,
    updatedAt: Option<Timestamp>)

  datatype PaymentCardResponse = PaymentCardResponse(
    id: Option<CardId>,
    userId: Option<UserId>,
    number: string,
    holder: string,
    expirationDate: Date,
    active: Option<bool>,
    createdAt: Option<Timestamp>,
    updatedAt: Option<Timestamp>)

  datatype UserWithCardsResponse = UserWithCardsResponse(
    id: Option<UserId>,
    name: string,
    surname: string,
    birthDate: Option<Date>,
    email: string,
    active: Option<bool>,
    createdAt: Option<Timestamp>,
    updatedAt: Option<Timestamp>,
    paymentCards: seq<PaymentCardResponse>)
}
