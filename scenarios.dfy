/** Client sequences over the three services, checked against their
    contracts alone: the round trip of a created movie, the title collision,
    the half-open overlap rule of the scheduler and the seat life cycle of
    the ledger. */
module Scenarios {
  import opened Outcomes
  import Movies
  import Showtimes
  import Bookings

  method MovieRoundTripAndCollision()
  {
    var catalog := new Movies.MovieService();
    var inception := Movies.Movie("Inception", "Sci-Fi", 148, 88, 2010);
    var created := catalog.CreateMovie(inception, 2025, false);
    assert created.Ok? && created.value.1 == inception;
    var fetched := catalog.GetMovieById(created.value.0);
    assert fetched == Ok(inception);
    var again := catalog.CreateMovie(inception, 2025, false);
    assert again == Conflict;
    var gone := catalog.DeleteMovieByTitle("Inception", false);
    assert gone == Ok(());
    var missing := catalog.DeleteMovieByTitle("Inception", false);
    assert missing == NotFound;
    var successor := catalog.CreateMovie(Movies.Movie("Tenet", "Sci-Fi", 150, 73, 2020), 2025, false);
    assert successor.Ok? && successor.value.0 != created.value.0;
    var negative := catalog.GetMovieById(-1);
    assert negative == NotFound;
  }

  method OverlapInOneTheater(t: Showtimes.Instant)
  {
    var catalog := new Movies.MovieService();
    var created := catalog.CreateMovie(Movies.Movie("Inception", "Sci-Fi", 148, 88, 2010), 2025, false);
    var movie := created.value.0;
    var schedule := new Showtimes.ShowtimeService(catalog);
    var first := schedule.CreateShowtime(Showtimes.Showtime(movie, "IMAX 1", t, t + 120, 1500));
    assert first.Ok?;
    var overlapping := schedule.CreateShowtime(Showtimes.Showtime(movie, "IMAX 1", t + 60, t + 180, 1500));
    assert overlapping == Conflict;
    var touching := schedule.CreateShowtime(Showtimes.Showtime(movie, "IMAX 1", t + 120, t + 180, 1500));
    assert touching.Ok?;
    var elsewhere := schedule.CreateShowtime(Showtimes.Showtime(movie, "IMAX 2", t + 60, t + 180, 1500));
    assert elsewhere.Ok?;
    var orphan := schedule.CreateShowtime(Showtimes.Showtime(movie + 1, "IMAX 3", t, t + 120, 1500));
    assert orphan == NotFound;
  }

  method SeatLifeCycle()
  {
    var catalog := new Movies.MovieService();
    var created := catalog.CreateMovie(Movies.Movie("Inception", "Sci-Fi", 148, 88, 2010), 2025, false);
    var schedule := new Showtimes.ShowtimeService(catalog);
    var show := schedule.CreateShowtime(Showtimes.Showtime(created.value.0, "IMAX 1", 0, 120, 1500));
    var sid := show.value.0;
    var ledger := new Bookings.BookingService(schedule);
    var first := ledger.CreateBooking(Bookings.Booking(sid, "user-1", 5));
    assert first.Ok?;
    var second := ledger.CreateBooking(Bookings.Booking(sid, "user-2", 5));
    assert second == Conflict;
    var otherSeat := ledger.CreateBooking(Bookings.Booking(sid, "user-2", 6));
    assert otherSeat.Ok?;
    var cancelled := ledger.CancelBooking(first.value.0);
    assert cancelled == Ok(());
    var fetched := ledger.GetBookingById(first.value.0);
    assert fetched == NotFound;
    var rebooked := ledger.CreateBooking(Bookings.Booking(sid, "user-2", 5));
    assert rebooked.Ok?;
    var orphan := ledger.CreateBooking(Bookings.Booking(sid + 1, "user-3", 5));
    assert orphan == NotFound;
  }

  method SameSeatOnTwoShowtimes()
  {
    var catalog := new Movies.MovieService();
    var created := catalog.CreateMovie(Movies.Movie("Inception", "Sci-Fi", 148, 88, 2010), 2025, false);
    var schedule := new Showtimes.ShowtimeService(catalog);
    var early := schedule.CreateShowtime(Showtimes.Showtime(created.value.0, "IMAX 1", 0, 120, 1500));
    var late := schedule.CreateShowtime(Showtimes.Showtime(created.value.0, "IMAX 1", 120, 240, 1500));
    var ledger := new Bookings.BookingService(schedule);
    var first := ledger.CreateBooking(Bookings.Booking(early.value.0, "user-1", 5));
    assert first.Ok?;
    var second := ledger.CreateBooking(Bookings.Booking(late.value.0, "user-2", 5));
    assert second.Ok?;
  }

  method CascadeKeepsIdsFresh()
  {
    var catalog := new Movies.MovieService();
    var created := catalog.CreateMovie(Movies.Movie("Inception", "Sci-Fi", 148, 88, 2010), 2025, false);
    var schedule := new Showtimes.ShowtimeService(catalog);
    var early := schedule.CreateShowtime(Showtimes.Showtime(created.value.0, "IMAX 1", 0, 120, 1500));
    var late := schedule.CreateShowtime(Showtimes.Showtime(created.value.0, "IMAX 1", 120, 240, 1500));
    var ledger := new Bookings.BookingService(schedule);
    var first := ledger.CreateBooking(Bookings.Booking(early.value.0, "user-1", 5));
    var removed := Bookings.DeleteShowtimeCascading(schedule, ledger, early.value.0);
    assert removed == Ok(());
    var fetched := ledger.GetBookingById(first.value.0);
    assert fetched == NotFound;
    var next := ledger.CreateBooking(Bookings.Booking(late.value.0, "user-2", 5));
    assert next.Ok? && next.value.0 != first.value.0;
  }
}
