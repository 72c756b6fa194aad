/**
 * The queries of the user repository as functions of the `users` table, and
 * the single-column `UPDATE` as the table it leaves behind.
 */
module UserRepository {
  import opened Common
  import opened Text
  import opened Tables
  import opened Entities

  /** The unique constraint on `users.email`. */
  predicate EmailUnique(users: Table<User>) {
    forall j, k :: j in users.rows && k in users.rows && users.rows[j].email == users.rows[k].email ==> j == k
  }

  /** `findById`. */
  function FindById(users: Table<User>, id: UserId): (r: Option<User>)
    ensures r.Some? <==> id in users.rows
    ensures r.Some? ==> r.value == users.rows[id]
  {
    if id in users.rows then Some(users.rows[id]) else None
  }

  function HasEmail(e: string): User -> bool {
    (u: User) => u.email == e
  }

  /** `existsByEmail`: some stored user has exactly this email. */
  function ExistsByEmail(users: Table<User>, e: string): (b: bool)
    ensures b <==> exists k :: k in users.rows && users.rows[k].email == e
  {
    var ids := Select(users, HasEmail(e));
    assert ids != [] ==> ids[0] in ids;
    ids != []
  }

  /** `findByEmail`: a stored user with this email, present exactly when one exists. */
  function FindByEmail(users: Table<User>, e: string): (r: Option<User>)
    ensures r.Some? <==> ExistsByEmail(users, e)
    ensures r.Some? ==> r.value.email == e && r.value in users.rows.Values
  {
    var ids := Select(users, HasEmail(e));
    if ids == [] then None else Some(users.rows[ids[0]])
  }

  /** Under the unique constraint, `findByEmail` returns the one user holding the email. */
  lemma FindByEmailUnique(users: Table<User>, e: string, k: UserId)
    requires EmailUnique(users)
    requires k in users.rows && users.rows[k].email == e
    ensures FindByEmail(users, e) == Some(users.rows[k])
  {
    var ids := Select(users, HasEmail(e));
    assert k in ids;
    assert ids[0] in ids;
  }

  predicate ActiveTrue(u: User) {
    u.active == Some(true)
  }

  /** `findByActiveTrue`: exactly the stored users whose `active` is true. */
  function FindByActiveTrue(users: Table<User>): (r: seq<User>)
    ensures forall u :: u in r ==> u in users.rows.Values && u.active == Some(true)
    ensures forall k :: k in users.rows && users.rows[k].active == Some(true) ==> users.rows[k] in r
  {
    Query(users, ActiveTrue)
  }

  /**
   * One side of `findByNameAndSurnameContaining`: a null parameter imposes
   * nothing; otherwise the lower-cased column must match the lower-cased
   * pattern `'%' || filter || '%'` (so `%`, `_` and `\` in the filter keep
   * their `LIKE` meaning).
   */
  predicate ContainingIgnoringCase(column: string, filter: Option<string>) {
    filter.None? || Like(Lower(column), Lower("%" + filter.value + "%"))
  }

  function NameAndSurnameContaining(name: Option<string>, surname: Option<string>): User -> bool {
    (u: User) => ContainingIgnoringCase(u.name, name) && ContainingIgnoringCase(u.surname, surname)
  }

  /** `findByNameAndSurnameContaining`: the users matching both optional filters. */
  function FindByNameAndSurnameContaining(users: Table<User>, name: Option<string>, surname: Option<string>): (r: seq<User>)
    ensures forall u :: u in r ==> u in users.rows.Values
    ensures forall u :: u in r ==> ContainingIgnoringCase(u.name, name) && ContainingIgnoringCase(u.surname, surname)
    ensures forall k ::
      (k in users.rows && ContainingIgnoringCase(users.rows[k].name, name)
        && ContainingIgnoringCase(users.rows[k].surname, surname)) ==> users.rows[k] in r
  {
    Query(users, NameAndSurnameContaining(name, surname))
  }

  /** A filter without wildcard characters is a case-insensitive substring test. */
  lemma ContainingLiteral(column: string, filter: string)
    requires IsLiteral(filter)
    ensures ContainingIgnoringCase(column, Some(filter)) <==> Contains(Lower(column), Lower(filter))
  {
    assert Lower("%" + filter + "%") == "%" + Lower(filter) + "%";
    LowerKeepsLiteral(filter);
    LikeContains(Lower(column), Lower(filter));
  }

  /** With both parameters null, every user is returned. */
  lemma NoFiltersFindAll(users: Table<User>, k: UserId)
    requires k in users.rows
    ensures users.rows[k] in FindByNameAndSurnameContaining(users, None, None)
  {
  }

  /**
   * A blank parameter is a filter, not an absent one: a column holding no space
   * passes the absent filter and fails the filter " ".
   */
  lemma BlankFilterIsNotAbsent(column: string)
    requires ' ' !in column
    ensures ContainingIgnoringCase(column, None)
    ensures !ContainingIgnoringCase(column, Some(" "))
  {
    ContainingLiteral(column, " ");
    assert forall i :: 0 <= i < |column| ==> Lower(column)[i] != Lower(" ")[0];
    NotContainsForeignChar(Lower(column), Lower(" "), 0);
  }

  predicate ActiveBornBefore(u: User, d: Date, a: bool) {
    u.active == Some(a) && u.birthDate.Some? && u.birthDate.value < d
  }

  function BornBefore(d: Date, a: bool): User -> bool {
    (u: User) => ActiveBornBefore(u, d, a)
  }

  /**
   * `findActiveUsersBornBefore(d, a)`: the users whose `active` equals `a`
   * and whose birth date is strictly before `d`; a null birth date or a
   * null `active` never compares true.
   */
  function FindActiveUsersBornBefore(users: Table<User>, d: Date, a: bool): (r: seq<User>)
    ensures forall u :: u in r ==> u in users.rows.Values
    ensures forall u :: u in r ==> u.active == Some(a) && u.birthDate.Some? && u.birthDate.value < d
    ensures forall k :: k in users.rows && ActiveBornBefore(users.rows[k], d, a) ==> users.rows[k] in r
  {
    Query(users, BornBefore(d, a))
  }

  /** Born on the cut-off day is not born before it. */
  lemma BornOnCutOffExcluded(u: User, d: Date, a: bool)
    requires u.birthDate == Some(d)
    ensures !ActiveBornBefore(u, d, a)
  {
  }

  /**
   * The table `updateActiveStatus(id, a)` leaves behind: the `active` column
   * of row `id` (if any) becomes `a`; nothing else changes, the audit
   * columns included (a bulk `UPDATE` does not go through the entity listener).
   */
  function UpdateActiveStatus(users: Table<User>, id: UserId, a: bool): (t: Table<User>)
    ensures t.next == users.next && t.rows.Keys == users.rows.Keys
    ensures forall k :: k in t.rows && k != id ==> t.rows[k] == users.rows[k]
    ensures id in t.rows ==> t.rows[id] == users.rows[id].(active := Some(a))
  {
    if id in users.rows then TableData(users.rows[id := users.rows[id].(active := Some(a))], users.next) else users
  }

  /** Setting the same status twice is setting it once. */
  lemma UpdateActiveStatusIdempotent(users: Table<User>, id: UserId, a: bool)
    ensures UpdateActiveStatus(UpdateActiveStatus(users, id, a), id, a) == UpdateActiveStatus(users, id, a)
  {
  }

  /** The later of two status updates of one row wins. */
  lemma UpdateActiveStatusLastWins(users: Table<User>, id: UserId, a: bool, b: bool)
    ensures UpdateActiveStatus(UpdateActiveStatus(users, id, a), id, b) == UpdateActiveStatus(users, id, b)
  {
  }
}

/** The queries of the payment-card repository as functions of the `payment_cards` table. */
module PaymentCardRepository {
  import opened Common
  import opened Tables
  import opened Entities

  /** The unique constraint on `payment_cards.number`. */
  predicate NumberUnique(cards: Table<PaymentCard>) {
    forall j, k :: j in cards.rows && k in cards.rows && cards.rows[j].number == cards.rows[k].number ==> j == k
  }

  /** `findById`. */
  function FindById(cards: Table<PaymentCard>, id: CardId): (r: Option<PaymentCard>)
    ensures r.Some? <==> id in cards.rows
    ensures r.Some? ==> r.value == cards.rows[id]
  {
    if id in cards.rows then Some(cards.rows[id]) else None
  }

  function OwnedBy(u: UserId): PaymentCard -> bool {
    (c: PaymentCard) => c.owner == Some(u)
  }

  /** `findByUserId`: exactly the cards whose `user_id` is `u`. */
  function FindByUserId(cards: Table<PaymentCard>, u: UserId): (r: seq<PaymentCard>)
    ensures forall c :: c in r ==> c in cards.rows.Values && c.owner == Some(u)
    ensures forall k :: k in cards.rows && cards.rows[k].owner == Some(u) ==> cards.rows[k] in r
  {
    Query(cards, OwnedBy(u))
  }

  predicate ActiveTrue(c: PaymentCard) {
    c.active == Some(true)
  }

  /** `findByActiveTrue`: exactly the cards whose `active` is true. */
  function FindByActiveTrue(cards: Table<PaymentCard>): (r: seq<PaymentCard>)
    ensures forall c :: c in r ==> c in cards.rows.Values && c.active == Some(true)
    ensures forall k :: k in cards.rows && cards.rows[k].active == Some(true) ==> cards.rows[k] in r
  {
    Query(cards, ActiveTrue)
  }

  /** `findByIdAndUserId`: card `id`, only when `u` owns it. */
  function FindByIdAndUserId(cards: Table<PaymentCard>, id: CardId, u: UserId): (r: Option<PaymentCard>)
    ensures r.Some? <==> id in cards.rows && cards.rows[id].owner == Some(u)
    ensures r.Some? ==> r.value == cards.rows[id]
  {
    if id in cards.rows && cards.rows[id].owner == Some(u) then Some(cards.rows[id]) else None
  }

  function OwnedWithStatus(u: UserId, a: bool): PaymentCard -> bool {
    (c: PaymentCard) => c.owner == Some(u) && c.active == Some(a)
  }

  /** `findByUserIdAndActiveStatus(u, a)`: the cards of `u` whose `active` equals `a`. */
  function FindByUserIdAndActiveStatus(cards: Table<PaymentCard>, u: UserId, a: bool): (r: seq<PaymentCard>)
    ensures forall c :: c in r ==> c in cards.rows.Values && c.owner == Some(u) && c.active == Some(a)
    ensures forall k :: k in cards.rows && cards.rows[k].owner == Some(u) && cards.rows[k].active == Some(a) ==>
      cards.rows[k] in r
  {
    Query(cards, OwnedWithStatus(u, a))
  }

  /** The ids of the cards `u` owns. */
  function IdsOwnedBy(cards: Table<PaymentCard>, u: UserId): set<CardId> {
    set k | k in cards.rows && cards.rows[k].owner == Some(u)
  }

  /** `countCardsByUserId(u)`: the number of cards whose `user_id` is `u`, which is the length of `findByUserId(u)`. */
  function CountCardsByUserId(cards: Table<PaymentCard>, u: UserId): (n: nat)
    ensures n == |IdsOwnedBy(cards, u)|
    ensures n == |FindByUserId(cards, u)|
  {
    assert Matching(cards, OwnedBy(u)) == IdsOwnedBy(cards, u);
    Count(cards, OwnedBy(u))
  }

  function HasNumber(n: string): PaymentCard -> bool {
    (c: PaymentCard) => c.number == n
  }

  /** `findByNumber`: a card holding this number, present exactly when one exists. */
  function FindByNumber(cards: Table<PaymentCard>, n: string): (r: Option<PaymentCard>)
    ensures r.Some? <==> exists k :: k in cards.rows && cards.rows[k].number == n
    ensures r.Some? ==> r.value.number == n && r.value in cards.rows.Values
  {
    var ids := Select(cards, HasNumber(n));
    if ids == [] then None
    else
      assert ids[0] in ids;
      Some(cards.rows[ids[0]])
  }

  /** Under the unique constraint, `findByNumber` returns the one card holding the number. */
  lemma FindByNumberUnique(cards: Table<PaymentCard>, n: string, k: CardId)
    requires NumberUnique(cards)
    requires k in cards.rows && cards.rows[k].number == n
    ensures FindByNumber(cards, n) == Some(cards.rows[k])
  {
    var ids := Select(cards, HasNumber(n));
    assert k in ids;
    assert ids[0] in ids;
  }

  /** The table `updateActiveStatus(id, a)` leaves behind: only the `active` column of card `id` changes. */
  function UpdateActiveStatus(cards: Table<PaymentCard>, id: CardId, a: bool): (t: Table<PaymentCard>)
    ensures t.next == cards.next && t.rows.Keys == cards.rows.Keys
    ensures forall k :: k in t.rows && k != id ==> t.rows[k] == cards.rows[k]
    ensures id in t.rows ==> t.rows[id] == cards.rows[id].(active := Some(a))
  {
    if id in cards.rows then TableData(cards.rows[id := cards.rows[id].(active := Some(a))], cards.next) else cards
  }

  lemma UpdateActiveStatusIdempotent(cards: Table<PaymentCard>, id: CardId, a: bool)
    ensures UpdateActiveStatus(UpdateActiveStatus(cards, id, a), id, a) == UpdateActiveStatus(cards, id, a)
  {
  }
}
