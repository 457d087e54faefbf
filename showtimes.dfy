/** The showtime scheduler: a table of showtimes, each referring to a movie
    of the catalog, guarded against two showtimes of one theater clashing. */
module Showtimes {
  import opened Outcomes
  import Movies

  /** Ids come from the request path as integers, negative ones included. */
  type ShowtimeId = int

  /** A point in time, as an integer instant. */
  type Instant = int

  /** A row of the showtime table. The price is kept in cents. Nothing in
      the service demands `start < end`. */
  datatype Showtime = Showtime(movie: Movies.MovieId, theater: string, start: Instant, end: Instant, price: int)

  /** The partial field set of an update request; the movie cannot be
      changed through it. */
  datatype ShowtimePatch = ShowtimePatch(
    theater: Option<string>,
    start: Option<Instant>,
    end: Option<Instant>,
    price: Option<int>)

  /** The overlap test of the create query: a candidate running from `start`
      to `end` in `theater` clashes with the row `x`. Both comparisons are
      strict, which is the overlap test of half-open intervals. */
  function Clashes(theater: string, start: Instant, end: Instant, x: Showtime): (r: bool)
    ensures x.theater != theater ==> !r
    ensures end <= x.start || x.end <= start ==> !r
    ensures x.theater == theater && start == x.start && start < end && x.start < x.end ==> r
  {
    x.theater == theater && start < x.end && end > x.start
  }

  /** The create query finds a clashing row. Only rows of the candidate's
      theater can make it fire, and a candidate that fits between all of
      them, touching allowed, is never refused. */
  function HasClash(t: map<ShowtimeId, Showtime>, theater: string, start: Instant, end: Instant): (r: bool)
    ensures r ==> exists id :: id in t && t[id].theater == theater
    ensures (forall id :: id in t && t[id].theater == theater ==> end <= t[id].start || t[id].end <= start) ==> !r
  {
    exists id :: id in t && Clashes(theater, start, end, t[id])
  }

  /** Some row other than `self` already starts at `start` in `theater`:
      the database's unique (theater, start_time) constraint refuses the
      write. */
  function StartTakenByOther(t: map<ShowtimeId, Showtime>, theater: string, start: Instant, self: ShowtimeId): (r: bool)
    ensures UniqueStarts(t) && self in t && t[self].theater == theater && t[self].start == start ==> !r
    ensures r ==> exists id :: id in t && id != self && t[id].theater == theater && t[id].start == start
  {
    exists id :: id in t && id != self && t[id].theater == theater && t[id].start == start
  }

  /** No two rows of one theater clash: the invariant createShowtime guards. */
  ghost predicate NoOverlap(t: map<ShowtimeId, Showtime>) {
    forall i, j :: i in t && j in t && i != j ==> !Clashes(t[i].theater, t[i].start, t[i].end, t[j])
  }

  /** No two rows of one theater start at the same instant: the table's
      unique constraint. */
  ghost predicate UniqueStarts(t: map<ShowtimeId, Showtime>) {
    forall i, j :: i in t && j in t && i != j && t[i].theater == t[j].theater ==> t[i].start != t[j].start
  }

  /** A row with the supplied fields of `p` merged into it. */
  function Merge(s: Showtime, p: ShowtimePatch): (r: Showtime)
    ensures r.movie == s.movie
    ensures p == ShowtimePatch(None, None, None, None) ==> r == s
    ensures && (p.theater.Some? ==> r.theater == p.theater.value)
            && (p.start.Some? ==> r.start == p.start.value)
            && (p.end.Some? ==> r.end == p.end.value)
            && (p.price.Some? ==> r.price == p.price.value)
    ensures && (p.theater.None? ==> r.theater == s.theater)
            && (p.start.None? ==> r.start == s.start)
            && (p.end.None? ==> r.end == s.end)
            && (p.price.None? ==> r.price == s.price)
  {
    Showtime(s.movie, p.theater.Or(s.theater), p.start.Or(s.start), p.end.Or(s.end), p.price.Or(s.price))
  }

  /** The instant `i` lies in the half-open interval from `start` to `end`. */
  predicate Covers(start: Instant, end: Instant, i: Instant) {
    start <= i < end
  }

  /** The test does not depend on which of the two is the candidate. */
  lemma ClashesSymmetric(a: Showtime, b: Showtime)
    ensures Clashes(a.theater, a.start, a.end, b) <==> Clashes(b.theater, b.start, b.end, a)
  {
  }

  /** For showtimes that last a while, the strict test says exactly that the
      two half-open intervals share an instant in the same theater. */
  lemma ClashIsSharedInstant(theater: string, start: Instant, end: Instant, x: Showtime)
    requires start < end && x.start < x.end
    ensures Clashes(theater, start, end, x) <==>
              x.theater == theater && exists i: Instant :: Covers(start, end, i) && Covers(x.start, x.end, i)
  {
    if Clashes(theater, start, end, x) {
      var i := if start < x.start then x.start else start;
      assert Covers(start, end, i) && Covers(x.start, x.end, i);
    }
  }

  /** Without an overlap, no two rows of one theater share an instant, even
      where some rows have no length or run backwards. */
  lemma NoOverlapMeansNoSharedInstant(t: map<ShowtimeId, Showtime>, a: ShowtimeId, b: ShowtimeId, i: Instant)
    requires NoOverlap(t) && a in t && b in t && a != b && t[a].theater == t[b].theater
    ensures !(Covers(t[a].start, t[a].end, i) && Covers(t[b].start, t[b].end, i))
  {
    assert !Clashes(t[a].theater, t[a].start, t[a].end, t[b]);
  }

  /** The table's unique constraint says exactly that the save-time check
      refuses none of the rows already stored. */
  lemma UniqueStartsIffNoRowRefused(t: map<ShowtimeId, Showtime>)
    ensures UniqueStarts(t) <==> forall id :: id in t ==> !StartTakenByOther(t, t[id].theater, t[id].start, id)
  {
    if !UniqueStarts(t) {
      var i, j :| i in t && j in t && i != j && t[i].theater == t[j].theater && t[i].start == t[j].start;
      assert StartTakenByOther(t, t[i].theater, t[i].start, i) by {
        assert j in t && j != i && t[j].theater == t[i].theater && t[j].start == t[i].start;
      }
    }
  }

  /** As written, the test also fires for a candidate of no length lying
      inside an existing showtime, although the two share no instant. */
  lemma EmptyCandidateInsideClashes(theater: string, at: Instant, x: Showtime)
    requires x.theater == theater && x.start < at < x.end
    ensures Clashes(theater, at, at, x)
    ensures !exists i: Instant :: Covers(at, at, i)
  {
  }

  /** Adding a row the create query found no clash for keeps the table free
      of overlaps. */
  lemma InsertWithoutClashKeepsNoOverlap(t: map<ShowtimeId, Showtime>, id: ShowtimeId, s: Showtime)
    requires NoOverlap(t) && id !in t
    requires !HasClash(t, s.theater, s.start, s.end)
    ensures NoOverlap(t[id := s])
  {
    var u := t[id := s];
    forall i, j | i in u && j in u && i != j
      ensures !Clashes(u[i].theater, u[i].start, u[i].end, u[j])
    {
      if i == id {
        assert !Clashes(s.theater, s.start, s.end, t[j]);
      } else if j == id {
        assert !Clashes(s.theater, s.start, s.end, t[i]);
        ClashesSymmetric(s, t[i]);
      }
    }
  }

  /** The update path does not re-run the overlap test: moving a showtime so
      that it clashes with another row of its theater leaves two clashing
      rows in the table. */
  lemma MergeCanBreakNoOverlap(t: map<ShowtimeId, Showtime>, id: ShowtimeId, other: ShowtimeId, p: ShowtimePatch)
    requires id in t && other in t && id != other
    requires Clashes(Merge(t[id], p).theater, Merge(t[id], p).start, Merge(t[id], p).end, t[other])
    ensures !NoOverlap(t[id := Merge(t[id], p)])
  {
    var u := t[id := Merge(t[id], p)];
    assert u[other] == t[other];
    assert Clashes(u[id].theater, u[id].start, u[id].end, u[other]);
  }

  /** A concrete case of the gap: both rows start at different instants, so
      the table's unique constraint lets the update through. */
  lemma UpdateAcceptsOverlappingMove()
    ensures
      var t := map[0 := Showtime(1, "IMAX 1", 0, 120, 1000), 1 := Showtime(1, "IMAX 1", 120, 240, 1000)];
      var p := ShowtimePatch(None, Some(60), Some(180), None);
      && NoOverlap(t) && UniqueStarts(t)
      && !StartTakenByOther(t, Merge(t[1], p).theater, Merge(t[1], p).start, 1)
      && !NoOverlap(t[1 := Merge(t[1], p)])
  {
    var t := map[0 := Showtime(1, "IMAX 1", 0, 120, 1000), 1 := Showtime(1, "IMAX 1", 120, 240, 1000)];
    var p := ShowtimePatch(None, Some(60), Some(180), None);
    MergeCanBreakNoOverlap(t, 1, 0, p);
  }

  /** The scheduler service, owning the showtime table and reading the
      catalog's movie table. */
  class ShowtimeService {
    const catalog: Movies.MovieService
    var showtimes: map<ShowtimeId, Showtime>
    var nextId: nat

    /** Every row carries an id already handed out, and the table's unique
        constraint holds. */
    ghost predicate Valid()
      reads this
    {
      && (forall id :: id in showtimes ==> 0 <= id < nextId)
      && UniqueStarts(showtimes)
    }

    constructor (catalog: Movies.MovieService)
      ensures Valid() && this.catalog == catalog && showtimes == map[]
    {
      this.catalog := catalog;
      showtimes := map[];
      nextId := 0;
    }

    /** createShowtime: the movie must exist and no row of the theater may
        clash; the save itself fails when the theater already has a row
        starting at the same instant. */
    method CreateShowtime(s: Showtime) returns (r: Outcome<(ShowtimeId, Showtime)>)
      requires Valid() && s.price >= 0
      modifies this
      ensures Valid()
      ensures s.movie !in catalog.movies ==> r == NotFound && showtimes == old(showtimes)
      ensures s.movie in catalog.movies && HasClash(old(showtimes), s.theater, s.start, s.end) ==>
                r == Conflict && showtimes == old(showtimes)
      ensures r == Conflict ==> exists id :: id in old(showtimes) && Clashes(s.theater, s.start, s.end, old(showtimes)[id])
      ensures && s.movie in catalog.movies && !HasClash(old(showtimes), s.theater, s.start, s.end)
              && StartTakenByOther(old(showtimes), s.theater, s.start, old(nextId)) ==>
                r == Unexpected && showtimes == old(showtimes)
      ensures && s.movie in catalog.movies && !HasClash(old(showtimes), s.theater, s.start, s.end)
              && !StartTakenByOther(old(showtimes), s.theater, s.start, old(nextId)) ==>
                && r.Ok? && r.value.1 == s
                && r.value.0 !in old(showtimes)
                && showtimes == old(showtimes)[r.value.0 := s]
      ensures r.Ok? ==> r.value.0 == old(nextId) && nextId == old(nextId) + 1
      ensures !r.Ok? ==> nextId == old(nextId)
      ensures NoOverlap(old(showtimes)) ==> NoOverlap(showtimes)
    {
      if s.movie !in catalog.movies {
        return NotFound;
      }
      if HasClash(showtimes, s.theater, s.start, s.end) {
        return Conflict;
      }
      var id := nextId;
      if StartTakenByOther(showtimes, s.theater, s.start, id) {
        return Unexpected;
      }
      if NoOverlap(showtimes) {
        InsertWithoutClashKeepsNoOverlap(showtimes, id, s);
      }
      showtimes := showtimes[id := s];
      nextId := nextId + 1;
      r := Ok((id, s));
    }

    /** getShowtimeById: the row with that id, or NotFound. */
    method GetShowtimeById(id: ShowtimeId) returns (r: Outcome<Showtime>)
      ensures r.Ok? <==> id in showtimes
      ensures r.Ok? ==> r.value == showtimes[id]
      ensures !r.Ok? ==> r == NotFound
    {
      if id !in showtimes {
        return NotFound;
      }
      r := Ok(showtimes[id]);
    }

    /** getAllShowtimes: the whole table. */
    method GetAllShowtimes() returns (r: map<ShowtimeId, Showtime>)
      ensures r == showtimes
    {
      r := showtimes;
    }

    /** updateShowtime: NotFound when the id is absent; otherwise the patch
        is merged into that row alone and the re-read row is returned. The
        overlap test is not re-run; only the table's unique constraint can
        refuse the write. */
    method UpdateShowtime(id: ShowtimeId, p: ShowtimePatch) returns (r: Outcome<Showtime>)
      requires Valid()
      modifies this
      ensures Valid()
      ensures nextId == old(nextId)
      ensures id !in old(showtimes) ==> r == NotFound && showtimes == old(showtimes)
      ensures id in old(showtimes) && StartTakenByOther(old(showtimes), Merge(old(showtimes)[id], p).theater, Merge(old(showtimes)[id], p).start, id) ==>
                r == Unexpected && showtimes == old(showtimes)
      ensures id in old(showtimes) && !StartTakenByOther(old(showtimes), Merge(old(showtimes)[id], p).theater, Merge(old(showtimes)[id], p).start, id) ==>
                && r == Ok(Merge(old(showtimes)[id], p))
                && showtimes == old(showtimes)[id := Merge(old(showtimes)[id], p)]
    {
      if id !in showtimes {
        return NotFound;
      }
      var merged := Merge(showtimes[id], p);
      if StartTakenByOther(showtimes, merged.theater, merged.start, id) {
        return Unexpected;
      }
      showtimes := showtimes[id := merged];
      r := Ok(showtimes[id]);
    }

    /** deleteShowtime: NotFound when the id is absent; otherwise exactly that
        row is removed. */
    method DeleteShowtime(id: ShowtimeId) returns (r: Outcome<()>)
      requires Valid()
      modifies this
      ensures Valid()
      ensures id !in old(showtimes) ==> r == NotFound && showtimes == old(showtimes)
      ensures id in old(showtimes) ==> r == Ok(()) && showtimes == old(showtimes) - {id}
      ensures nextId == old(nextId)
      ensures NoOverlap(old(showtimes)) ==> NoOverlap(showtimes)
    {
      if id !in showtimes {
        return NotFound;
      }
      showtimes := showtimes - {id};
      r := Ok(());
    }
  }
}
