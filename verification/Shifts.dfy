/** The rows of prisma/schema.prisma's Shift, as both slot generators read them. */
module Shifts {

  /** Times of day in minutes; weekday 0 is Sunday. */
  datatype Shift = Shift(id: nat, dow: int, startsAt: nat, endsAt: nat, isActive: bool)

  /** A shift that does not end after it starts runs into the next day. */
  predicate WrapsOvernight(s: Shift) {
    s.endsAt <= s.startsAt
  }
}
