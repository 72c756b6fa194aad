/**
 * Shared vocabulary of the user service model: nullable values, identifiers
 * and the clock-driven types the entities carry.
 */
module Common {

  /** A Java reference that may be null (`Optional`, a nullable `Long`, `Boolean`, `String`). */
  datatype Option<+T> = None | Some(value: T)

  /** Identity-column values of the `users` and `payment_cards` tables. */
  type UserId = nat
  type CardId = nat

  /** A `LocalDate`, as a day number: only its order matters to the model. */
  type Date = int

  /** A `LocalDateTime` written by the auditing listener; the model only copies it. */
  type Timestamp = int

  /** A subset is no larger than its superset. */
  lemma {:induction false} SubsetSize<T>(a: set<T>, b: set<T>)
    requires a <= b
    ensures |a| <= |b|
    decreases |b|
  {
    if a != {} {
      var x :| x in a;
      SubsetSize(a - {x}, b - {x});
    }
  }
}
