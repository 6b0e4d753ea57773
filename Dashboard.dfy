/**
 * The dashboard's seat counters (components/Dashboard.tsx): the free seats
 * shown in the progress card and the filled part of the progress bar. Both
 * count every sign-up, waiting list included.
 */
module Dashboard {
  import opened Types
  import opened Seqs
  import opened Constants
  import Booking

  /** `Math.max(0, MAX_PLAYERS_PER_MATCH - registrations.length)`. */
  function SeatsRemaining(m: Match): nat {
    var free: int := MAX_PLAYERS_PER_MATCH - |m.registrations|;
    if free > 0 then free else 0
  }

  /** `Math.min(seatsTaken, MAX_PLAYERS_PER_MATCH)`: the filled twelfths of the progress bar. */
  function ProgressSeats(m: Match): nat {
    Min(|m.registrations|, MAX_PLAYERS_PER_MATCH)
  }

  /**
   * The free seats never exceed twelve, reach zero exactly when twelve or
   * more players have signed up, and otherwise are twelve minus the sign-ups.
   */
  lemma SeatsRemainingBounds(m: Match)
    ensures SeatsRemaining(m) <= MAX_PLAYERS_PER_MATCH
    ensures SeatsRemaining(m) == 0 <==> |m.registrations| >= MAX_PLAYERS_PER_MATCH
    ensures |m.registrations| < MAX_PLAYERS_PER_MATCH ==> SeatsRemaining(m) == MAX_PLAYERS_PER_MATCH - |m.registrations|
  {
  }

  /** The bar never overflows, and the free seats and the filled part add up to the twelve seats. */
  lemma SeatsAddUp(m: Match)
    ensures ProgressSeats(m) <= MAX_PLAYERS_PER_MATCH
    ensures SeatsRemaining(m) + ProgressSeats(m) == MAX_PLAYERS_PER_MATCH
  {
  }

  /**
   * The dashboard agrees with the booking page: the bar shows the confirmed
   * seats, and the free seats are zero exactly when the badge says sold out,
   * and otherwise the number on the badge.
   */
  lemma DashboardAgreesWithBooking(m: Match)
    ensures ProgressSeats(m) == Booking.SeatsTaken(m)
    ensures SeatsRemaining(m) == 0 <==> Booking.SeatBadge(m) == Booking.SoldOut
    ensures Booking.SeatBadge(m).Free? ==> Booking.SeatBadge(m).seats == SeatsRemaining(m)
  {
    Booking.SeatsAndWaitingList(m);
  }
}
