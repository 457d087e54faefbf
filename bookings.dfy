/** The booking ledger: a table of seat bookings, each referring to a
    showtime of the scheduler, guarded against booking one seat of one
    showtime twice. */
module Bookings {
  import opened Outcomes
  import Showtimes

  /** Ids come from the request path as integers, negative ones included. */
  type BookingId = int

  /** A row of the booking table. */
  datatype Booking = Booking(showtime: Showtimes.ShowtimeId, userId: string, seatNumber: int)

  /** The lookup of the create path finds a booking of `seat` for `showtime`.
      It is keyed on the pair: the seat held on other showtimes, and other
      seats held on this one, do not make it fire. */
  function SeatTaken(t: map<BookingId, Booking>, showtime: Showtimes.ShowtimeId, seat: int): (r: bool)
    ensures (forall id :: id in t && t[id].seatNumber == seat ==> t[id].showtime != showtime) ==> !r
    ensures r ==> exists id :: id in t && t[id].showtime == showtime
  {
    exists id :: id in t && t[id].showtime == showtime && t[id].seatNumber == seat
  }

  /** At most one booking per (showtime, seat) pair: the invariant the create
      path guards, and the table's unique constraint. */
  ghost predicate SeatsUnique(t: map<BookingId, Booking>) {
    forall i, j :: i in t && j in t && t[i].showtime == t[j].showtime && t[i].seatNumber == t[j].seatNumber ==> i == j
  }

  /** Every booking refers to a showtime of `showtimes`. */
  ghost predicate BookingsReferToShowtimes(t: map<BookingId, Booking>, showtimes: map<Showtimes.ShowtimeId, Showtimes.Showtime>) {
    forall id :: id in t ==> t[id].showtime in showtimes
  }

  /** The table after the database's cascade for a deleted showtime. */
  function WithoutShowtime(t: map<BookingId, Booking>, showtime: Showtimes.ShowtimeId): (r: map<BookingId, Booking>)
    ensures forall id :: id in r ==> id in t && r[id] == t[id] && r[id].showtime != showtime
    ensures forall id :: id in t && t[id].showtime != showtime ==> id in r
    ensures SeatsUnique(t) ==> SeatsUnique(r)
  {
    map id | id in t && t[id].showtime != showtime :: t[id]
  }

  /** The conflict test for a showtime depends on that showtime's bookings
      alone: two tables holding the same bookings for it answer alike, however
      their bookings for other showtimes differ. */
  lemma SeatTakenIsPerShowtime(t: map<BookingId, Booking>, u: map<BookingId, Booking>, showtime: Showtimes.ShowtimeId, seat: int)
    requires forall id :: id in t && t[id].showtime == showtime ==> id in u && u[id] == t[id]
    requires forall id :: id in u && u[id].showtime == showtime ==> id in t && t[id] == u[id]
    ensures SeatTaken(t, showtime, seat) <==> SeatTaken(u, showtime, seat)
  {
  }

  /** Once a booking is removed, its seat may be booked again, provided the
      table held at most one booking of that seat. */
  lemma CancelFreesSeat(t: map<BookingId, Booking>, id: BookingId)
    requires SeatsUnique(t) && id in t
    ensures !SeatTaken(t - {id}, t[id].showtime, t[id].seatNumber)
  {
  }

  /** One booking per (showtime, seat) pair says exactly that every booking
      is the only holder of its seat: without it, the lookup would still
      find the seat taken. */
  lemma SeatsUniqueIffSoleHolder(t: map<BookingId, Booking>)
    ensures SeatsUnique(t) <==> forall id :: id in t ==> !SeatTaken(t - {id}, t[id].showtime, t[id].seatNumber)
  {
    if !SeatsUnique(t) {
      var i, j :| i in t && j in t && t[i].showtime == t[j].showtime && t[i].seatNumber == t[j].seatNumber && i != j;
      assert SeatTaken(t - {i}, t[i].showtime, t[i].seatNumber) by {
        assert j in t - {i};
      }
    } else {
      forall id | id in t
        ensures !SeatTaken(t - {id}, t[id].showtime, t[id].seatNumber)
      {
        CancelFreesSeat(t, id);
      }
    }
  }

  /** The ledger service, owning the booking table and reading the
      scheduler's showtime table. */
  class BookingService {
    const schedule: Showtimes.ShowtimeService
    var bookings: map<BookingId, Booking>
    var nextId: nat

    /** Every row carries an id already handed out, and no seat of a
        showtime is booked twice. */
    ghost predicate Valid()
      reads this
    {
      && (forall id :: id in bookings ==> 0 <= id < nextId)
      && SeatsUnique(bookings)
    }

    constructor (schedule: Showtimes.ShowtimeService)
      ensures Valid() && this.schedule == schedule && bookings == map[]
    {
      this.schedule := schedule;
      bookings := map[];
      nextId := 0;
    }

    /** createBooking: the showtime must exist and the seat must be free for
        it; then exactly one booking is added under a fresh id. */
    method CreateBooking(b: Booking) returns (r: Outcome<(BookingId, Booking)>)
      requires Valid() && b.seatNumber >= 1 && b.userId != []
      modifies this
      ensures Valid()
      ensures b.showtime !in schedule.showtimes ==> r == NotFound && bookings == old(bookings)
      ensures b.showtime in schedule.showtimes && SeatTaken(old(bookings), b.showtime, b.seatNumber) ==>
                r == Conflict && bookings == old(bookings)
      ensures b.showtime in schedule.showtimes && !SeatTaken(old(bookings), b.showtime, b.seatNumber) ==>
                && r.Ok? && r.value.1 == b
                && r.value.0 !in old(bookings)
                && bookings == old(bookings)[r.value.0 := b]
      ensures r.Ok? ==> r.value.0 == old(nextId) && nextId == old(nextId) + 1
      ensures !r.Ok? ==> nextId == old(nextId)
      ensures BookingsReferToShowtimes(old(bookings), schedule.showtimes) ==>
                BookingsReferToShowtimes(bookings, schedule.showtimes)
    {
      if b.showtime !in schedule.showtimes {
        return NotFound;
      }
      if SeatTaken(bookings, b.showtime, b.seatNumber) {
        return Conflict;
      }
      var id := nextId;
      bookings := bookings[id := b];
      nextId := nextId + 1;
      r := Ok((id, b));
    }

    /** getBookingById: the row with that id, or NotFound. */
    method GetBookingById(id: BookingId) returns (r: Outcome<Booking>)
      ensures r.Ok? <==> id in bookings
      ensures r.Ok? ==> r.value == bookings[id]
      ensures !r.Ok? ==> r == NotFound
    {
      if id !in bookings {
        return NotFound;
      }
      r := Ok(bookings[id]);
    }

    /** getBookingsForShowtime: exactly the bookings of that showtime, possibly
        none; whether the showtime exists is not checked. */
    method GetBookingsForShowtime(showtime: Showtimes.ShowtimeId) returns (r: map<BookingId, Booking>)
      ensures forall id :: id in r <==> id in bookings && bookings[id].showtime == showtime
      ensures forall id :: id in r ==> r[id] == bookings[id]
    {
      r := map id | id in bookings && bookings[id].showtime == showtime :: bookings[id];
    }

    /** cancelBooking: NotFound when the id is absent; otherwise that booking
        alone is removed and its seat is free again. */
    method CancelBooking(id: BookingId) returns (r: Outcome<()>)
      requires Valid()
      modifies this
      ensures Valid()
      ensures id !in old(bookings) ==> r == NotFound && bookings == old(bookings)
      ensures id in old(bookings) ==>
                && r == Ok(())
                && bookings == old(bookings) - {id}
                && !SeatTaken(bookings, old(bookings)[id].showtime, old(bookings)[id].seatNumber)
      ensures nextId == old(nextId)
      ensures BookingsReferToShowtimes(old(bookings), schedule.showtimes) ==>
                BookingsReferToShowtimes(bookings, schedule.showtimes)
    {
      if id !in bookings {
        return NotFound;
      }
      CancelFreesSeat(bookings, id);
      bookings := bookings - {id};
      r := Ok(());
    }

    /** The database's cascade when a showtime row is deleted: every booking
        of that showtime goes with it, and no other booking changes. */
    method RemoveBookingsOfShowtime(showtime: Showtimes.ShowtimeId)
      requires Valid()
      modifies this
      ensures Valid()
      ensures bookings == WithoutShowtime(old(bookings), showtime)
      ensures forall id :: id in old(bookings) ==> (id in bookings <==> old(bookings)[id].showtime != showtime)
      ensures forall id :: id in bookings ==> bookings[id] == old(bookings)[id]
      ensures nextId == old(nextId)
    {
      bookings := WithoutShowtime(bookings, showtime);
    }
  }

  /** deleteShowtime together with the cascade the booking table declares:
      after it, no booking refers to a missing showtime if none did before. */
  method DeleteShowtimeCascading(schedule: Showtimes.ShowtimeService, ledger: BookingService, id: Showtimes.ShowtimeId)
    returns (r: Outcome<()>)
    requires schedule.Valid() && ledger.Valid() && ledger.schedule == schedule
    modifies schedule, ledger
    ensures schedule.Valid() && ledger.Valid()
    ensures id !in old(schedule.showtimes) ==>
              r == NotFound && schedule.showtimes == old(schedule.showtimes) && ledger.bookings == old(ledger.bookings)
    ensures id in old(schedule.showtimes) ==>
              && r == Ok(())
              && schedule.showtimes == old(schedule.showtimes) - {id}
              && ledger.bookings == WithoutShowtime(old(ledger.bookings), id)
    ensures schedule.nextId == old(schedule.nextId) && ledger.nextId == old(ledger.nextId)
    ensures BookingsReferToShowtimes(old(ledger.bookings), old(schedule.showtimes)) ==>
              BookingsReferToShowtimes(ledger.bookings, schedule.showtimes)
  {
    r := schedule.DeleteShowtime(id);
    if r.Ok? {
      ledger.RemoveBookingsOfShowtime(id);
    }
  }
}
