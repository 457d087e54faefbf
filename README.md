# Popcorn Palace ticketing core in Dafny

This project models the part of the Popcorn Palace movie-ticketing backend that enforces its invariants. The backend has three services, and each one checks the current state of the table it owns before it writes.

- **Movie catalog** (`Movies.MovieService`, `movies.dfy`). It creates movies only under a title no row carries yet. Update and delete are keyed by title, and get is keyed by id.
- **Showtime scheduler** (`Showtimes.ShowtimeService`, `showtimes.dfy`). It creates a showtime only when the movie exists and no showtime of the same theater clashes with the new one. The clash test is `start < x.end && end > x.start`, the test for half-open intervals. Update and delete are keyed by id.
- **Booking ledger** (`Bookings.BookingService`, `bookings.dfy`). It books a seat only when the showtime exists and nobody holds the same (showtime, seat) pair. It lists the bookings of a showtime and cancels by id.

Each service is a class that holds its table as a `map` from id to row, plus a counter that hands out fresh ids. The scheduler reads the catalog's table and the ledger reads the scheduler's table, each through a `const` reference. Every call that can fail answers with `Outcome`: `Ok(v)`, `NotFound`, `Conflict` or `Unexpected`. The scheduler's and the ledger's list reads cannot fail, so they answer the map itself, and the cascade that removes a deleted showtime's bookings answers nothing. Read-only operations are methods without a `modifies` clause, so they cannot change any table.

The pure parts of the services are functions and predicates. These are the clash test (`Clashes`, `HasClash`), the seat test (`SeatTaken`) and the table transforms behind `update`/`delete` (`UpdateWhereTitle`, `DeleteWhereTitle`, `WithoutShowtime`). The invariants are stated as predicates: `UniqueTitles`, `NoOverlap`, `UniqueStarts` and `SeatsUnique`. Lemmas say which operations keep each invariant and which do not. Movie rename and showtime update can break theirs, because those paths do not re-check.

Two database constraints are part of the model, because they decide outcomes:

- The showtime table is unique on (theater, start_time) (`src/showtime/entities/showtime.entity.ts:5`). A write that would give a theater two rows with the same start fails in storage, which surfaces as `Unexpected`. `UniqueStarts` is therefore part of the scheduler's `Valid()`.
  - On create, the overlap test runs first and refuses every duplicate start between intervals of positive length with `Conflict`. Only a duplicate start involving an interval of no length, or a reversed one, gets past it to the constraint.
  - On update, no overlap test runs. Any move onto a start that another row of the theater already holds gives `Unexpected`, whatever the interval lengths.
- The booking table cascades deletes from its showtime (`src/booking/entities/booking.entity.ts:10`). `Bookings.DeleteShowtimeCascading` is `deleteShowtime` followed by that cascade.

In the movie service, every write step, and the list read, sits in a try/catch that turns any storage error into an internal server error. Each of those methods takes a `storageFails` flag, and when it is set the method answers `Unexpected` without changing the table. One such failure is deleting a movie that showtimes still refer to, because the foreign key does not cascade.

Conventions:
- Ids are integers, as the path parameters parse them, so a negative id is simply absent and answers `NotFound`.
- Instants are integers.
- Prices are integer cents.
- Ratings are integer tenths of a point (8.8 is stored as 88).
- The year used by the release-year bound is a parameter (`currentYear`).

`scenarios.dfy` replays five client sequences using only the contracts:
- creating "Inception" and reading it back, a second create of the same title, a delete, and a later create that gets a fresh id; a negative id answers `NotFound`;
- the overlap sequence T..T+2h, T+1h..T+3h, T+2h..T+3h in "IMAX 1", and the same interval in another theater;
- a seat booked, refused, cancelled, then booked again;
- the same seat booked on two showtimes of one theater, both accepted;
- a showtime deleted with its booking, after which a new booking still gets a fresh id.

In three places the model follows the code where a reader might expect otherwise:
- `updateShowtime` cannot re-bind the movie, because its input type has no movie field.
- Nothing enforces `end > start`.
- Titles are unique only through the create check. The movie table has no unique constraint.

## Model

| member | source | states |
|---|---|---|
| Movies.MovieService.CreateMovie | src/movie/movie.service.ts:16-35 | a taken title gives Conflict with the table unchanged; otherwise a storage failure gives Unexpected with the table unchanged, and success adds exactly the input under the id the supply hands out next, never one used before, and touches no other row; unique titles stay unique on every path |
| Movies.MovieService.GetAllMovies | src/movie/movie.service.ts:37-46 | answers the whole table, or Unexpected exactly when the read fails |
| Movies.MovieService.GetMovieById | src/movie/movie.service.ts:48-57 | answers the row with that id, or NotFound exactly when there is none; it cannot modify the table |
| Movies.MovieService.UpdateMovieByTitle | src/movie/movie.service.ts:59-73 | an absent title gives NotFound with no change; a storage failure gives Unexpected with no change; otherwise every row with that title gets the supplied fields, every other row and the id set stay as they were, and uniqueness is kept when the patch keeps the title or renames onto a title no row carries |
| Movies.MovieService.DeleteMovieByTitle | src/movie/movie.service.ts:75-89 | an absent title gives NotFound with no change; a storage failure gives Unexpected with no change; otherwise exactly the rows with that title are removed, the other rows are untouched, and the title is gone |
| Movies.ValidNewMovie | src/movie/dto/movie.dto.ts:3-25 | the bounds a new movie must meet: a non-empty title and genre, a positive duration, a rating within the scale, and a release year from 1900 to the current year, so no movie passes while the current year is before 1900 |
| Movies.HasTitle | src/movie/movie.service.ts:17-19 | the title lookup of create, update and delete fires only on a row carrying exactly that title, and never on an empty table |
| Movies.Patch | src/movie/movie.service.ts:67 | each field the update payload supplies replaces the stored one, each field it omits is kept, and an empty payload leaves the row as it was |
| Movies.UpdateWhereTitle | src/movie/movie.service.ts:67 | update-by-title keeps the id set, patches every row carrying the title and leaves every other row as it was |
| Movies.DeleteWhereTitle | src/movie/movie.service.ts:83 | delete-by-title removes exactly the rows carrying the title, keeps every other row as it was, and leaves no row with that title |
| Movies.UpdateOntoFreeTitleKeepsTitlesUnique | src/movie/movie.service.ts:66-67 | an update keeps titles unique when it keeps the title, restates it, or renames onto a title no row carries; with the next row, this says exactly when update-by-title keeps uniqueness |
| Movies.RenameOntoTakenTitleBreaksUniqueness | src/movie/movie.service.ts:66-67 | renaming onto a title another row carries leaves two rows with that title, since update does not re-check |
| Movies.DeleteRemovesExactlyOneRow | src/movie/movie.service.ts:75-84 | with unique titles, delete-by-title removes exactly the one row the lookup found and shrinks the table by one |
| Showtimes.Clashes | src/showtime/showtime.service.ts:26-32 | rows of another theater never clash; a candidate that ends when x starts or starts when x ends does not clash; two intervals of positive length in one theater starting together do clash |
| Showtimes.HasClash | src/showtime/showtime.service.ts:26-32 | the query can only find a row of the candidate's theater, and finds none when the candidate fits between all of that theater's rows, touching allowed |
| Showtimes.StartTakenByOther | src/showtime/entities/showtime.entity.ts:5 | the unique constraint fires only when another row of the same theater already holds that start; a row rewritten with its own theater and start in a table that satisfies the constraint is never refused |
| Showtimes.Merge | src/showtime/showtime.service.ts:73 | the merged row keeps its movie, takes each supplied field, keeps each omitted one, and an empty patch leaves it as it was |
| Showtimes.ClashesSymmetric | src/showtime/showtime.service.ts:26-32 | the overlap test gives the same answer whichever showtime is the candidate |
| Showtimes.ClashIsSharedInstant | src/showtime/showtime.service.ts:26-32 | for intervals of positive length, the strict test holds exactly when both are in the same theater and their half-open intervals share an instant |
| Showtimes.NoOverlapMeansNoSharedInstant | src/showtime/showtime.service.ts:26-32 | in a table where no two same-theater rows clash, no two rows of one theater share an instant, whatever their lengths |
| Showtimes.UniqueStartsIffNoRowRefused | src/showtime/entities/showtime.entity.ts:5 | the unique (theater, start_time) constraint holds exactly when the save-time check would refuse none of the stored rows |
| Showtimes.EmptyCandidateInsideClashes | src/showtime/showtime.service.ts:27-28 | as written, a candidate of no length that lies strictly inside an existing showtime is reported as clashing, although it covers no instant |
| Showtimes.InsertWithoutClashKeepsNoOverlap | src/showtime/showtime.service.ts:26-47 | adding a row for which the query found no clash keeps "no two same-theater showtimes clash" |
| Showtimes.MergeCanBreakNoOverlap | src/showtime/showtime.service.ts:71-75 | merging a patch that makes a row clash with another row of its theater leaves the table with an overlap |
| Showtimes.UpdateAcceptsOverlappingMove | src/showtime/showtime.service.ts:71-75 | a concrete table with no overlap and unique starts, and a patch the unique constraint accepts, for which updateShowtime produces an overlap |
| Showtimes.ShowtimeService.CreateShowtime | src/showtime/showtime.service.ts:18-48 | an unknown movie gives NotFound with no change; a clash in the theater gives Conflict with no change; a duplicate start in the theater gives Unexpected with no change; otherwise exactly the input row is added under the id the supply hands out next, never one used before; no-overlap and unique starts are kept |
| Showtimes.ShowtimeService.GetShowtimeById | src/showtime/showtime.service.ts:51-61 | answers the row with that id, or NotFound exactly when there is none |
| Showtimes.ShowtimeService.GetAllShowtimes | src/showtime/showtime.service.ts:64-68 | answers the whole table |
| Showtimes.ShowtimeService.UpdateShowtime | src/showtime/showtime.service.ts:71-75 | an absent id gives NotFound with no change; a merged start that another row of the theater holds gives Unexpected with no change; otherwise only that row becomes the merge of its old value and the patch, and the re-read row is returned; the overlap test is not re-run |
| Showtimes.ShowtimeService.DeleteShowtime | src/showtime/showtime.service.ts:77-80 | an absent id gives NotFound with no change; otherwise exactly that id is removed, and no-overlap is kept |
| Bookings.SeatTaken | src/booking/booking.service.ts:25-27 | the lookup fires only when some booking holds that seat for that showtime, so a seat held only on other showtimes is free, and it never fires for a showtime without bookings |
| Bookings.SeatTakenIsPerShowtime | src/booking/booking.service.ts:25-27 | two tables holding the same bookings for a showtime give the same answer for every seat of it, however their bookings for other showtimes differ |
| Bookings.WithoutShowtime | src/booking/entities/booking.entity.ts:10 | the cascade keeps exactly the bookings of other showtimes, each unchanged, and keeps one booking per seat |
| Bookings.SeatsUniqueIffSoleHolder | src/booking/entities/booking.entity.ts:5 | the unique (showtime, seatNumber) constraint holds exactly when, for every booking, the seat lookup over the other bookings finds its seat free |
| Bookings.CancelFreesSeat | src/booking/booking.service.ts:54-57 | with one booking per seat, removing a booking frees its (showtime, seat) pair |
| Bookings.BookingService.CreateBooking | src/booking/booking.service.ts:18-40 | an unknown showtime gives NotFound with no change; a taken (showtime, seat) pair gives Conflict with no change; otherwise exactly the input booking is added under the id the supply hands out next, never one used before; one booking per seat is kept, and bookings keep referring to existing showtimes |
| Bookings.BookingService.GetBookingById | src/booking/booking.service.ts:42-48 | answers the booking with that id, or NotFound exactly when there is none |
| Bookings.BookingService.GetBookingsForShowtime | src/booking/booking.service.ts:50-52 | answers exactly the bookings whose showtime is the given one, possibly none, without checking that the showtime exists |
| Bookings.BookingService.CancelBooking | src/booking/booking.service.ts:54-57 | an absent id gives NotFound with no change; otherwise exactly that booking is removed, after which the id is absent and its seat is free |
| Bookings.BookingService.RemoveBookingsOfShowtime | src/booking/entities/booking.entity.ts:10 | the cascade removes exactly the bookings of the deleted showtime and keeps every other booking as it was |
| Bookings.DeleteShowtimeCascading | src/showtime/showtime.service.ts:77-80 | deleteShowtime plus the booking cascade: NotFound with nothing changed, or the showtime and its bookings removed, after which every remaining booking still refers to an existing showtime; neither id counter moves on either path, so later creates still get fresh ids |

## Left out

- HTTP controllers, module wiring and bootstrap are not part of this model. The input validators are not modelled as behaviour; the bounds they put on new rows are preconditions of the create methods.
- The bounds on update payloads (duration, rating, release year in `UpdateMovieDto`; price in `UpdateShowtimeDto`) are not preconditions of the update methods. No property depends on them.
- Concurrency is not modelled: every operation runs atomically, one after another. The check-then-write race between concurrent requests is therefore not captured.
- Ids come from a counter per table. Serial ids and the booking UUID are not modelled.
- The `created_at`/`updated_at` timestamps and the logger calls are not modelled.
- A showtime row stores its movie's id. Eager loading of the movie relation is persistence mechanics and is not modelled.
- The list operations answer maps from id to row. The order of the arrays that storage returns is not modelled.
- Storage failures in the scheduler and the ledger are not modelled, because those services do not catch errors, apart from the unique (theater, start_time) constraint described above. Nor are failures of the movie service's lookups, which sit outside its try blocks (`src/movie/movie.service.ts:17`, `:49`, `:60`, `:76`). Such a failure would end as an internal server error, but `GetMovieById` answers only `Ok` or `NotFound`, and the create, update and delete methods reach `Unexpected` only through their `storageFails` flag on the write step.
- Movies.MovieService.DeleteMovieByTitle: the foreign-key failure on deleting a movie that showtimes still refer to appears only through the `storageFails` flag. It is not derived from the showtime table.
- An update with an empty payload still sets the row's `updated_at` stamp. That stamp is not modelled, so such an update answers `Ok` with the row unchanged.
- The decimal(5,2) upper bound on prices is not modelled.
- The field names differ between the DTOs, entities and services (`seat_number`/`seatNumber`, `customer_name`/`userId`, `releaseYear`/`release_year`). The model uses one record shape per entity: `seatNumber`, `userId`, `releaseYear`.
