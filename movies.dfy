/** The movie catalog: a table of movies that is written through create,
    update-by-title and delete-by-title, each a read-check-write sequence. */
module Movies {
  import opened Outcomes

  /** Ids come from the request path as integers, negative ones included. */
  type MovieId = int

  /** A row of the movie table. The rating is kept in tenths of a point
      (8.8 is stored as 88), so no fractional arithmetic is needed. */
  datatype Movie = Movie(title: string, genre: string, duration: int, rating: int, releaseYear: int)

  /** The partial field set of an update request. */
  datatype MoviePatch = MoviePatch(
    title: Option<string>,
    genre: Option<string>,
    duration: Option<int>,
    rating: Option<int>,
    releaseYear: Option<int>)

  /** The bounds the input validators put on a new movie. The upper bound on
      the release year is read from the clock once, when the validator class
      is loaded: `currentYear` is the year the server process started. */
  function ValidNewMovie(m: Movie, currentYear: int): (r: bool)
    ensures currentYear < 1900 ==> !r
    ensures r ==> m.title != [] && m.duration > 0 && m.rating <= 100 && m.releaseYear <= currentYear
  {
    && m.title != []
    && m.genre != []
    && m.duration >= 1
    && 0 <= m.rating <= 100
    && 1900 <= m.releaseYear <= currentYear
  }

  /** The lookup `findOne({ where: { title } })` finds a row. It fires only
      on an exact title match, and never on an empty table. */
  function HasTitle(t: map<MovieId, Movie>, title: string): (r: bool)
    ensures (forall id :: id in t ==> t[id].title != title) ==> !r
    ensures r ==> t.Keys != {}
  {
    exists id :: id in t && t[id].title == title
  }

  /** No two rows share a title. Only the create path guards this; the
      table itself has no unique constraint on titles. */
  ghost predicate UniqueTitles(t: map<MovieId, Movie>) {
    forall i, j :: i in t && j in t && t[i].title == t[j].title ==> i == j
  }

  /** A row with the supplied fields of `p` written over it. */
  function Patch(m: Movie, p: MoviePatch): (r: Movie)
    ensures p == MoviePatch(None, None, None, None, None) ==> r == m
    ensures && (p.title.Some? ==> r.title == p.title.value)
            && (p.genre.Some? ==> r.genre == p.genre.value)
            && (p.duration.Some? ==> r.duration == p.duration.value)
            && (p.rating.Some? ==> r.rating == p.rating.value)
            && (p.releaseYear.Some? ==> r.releaseYear == p.releaseYear.value)
    ensures && (p.title.None? ==> r.title == m.title)
            && (p.genre.None? ==> r.genre == m.genre)
            && (p.duration.None? ==> r.duration == m.duration)
            && (p.rating.None? ==> r.rating == m.rating)
            && (p.releaseYear.None? ==> r.releaseYear == m.releaseYear)
  {
    Movie(p.title.Or(m.title), p.genre.Or(m.genre), p.duration.Or(m.duration),
          p.rating.Or(m.rating), p.releaseYear.Or(m.releaseYear))
  }

  /** The table after `update({ title }, patch)`: the patch goes to every row
      carrying that title. */
  function UpdateWhereTitle(t: map<MovieId, Movie>, title: string, p: MoviePatch): (r: map<MovieId, Movie>)
    ensures r.Keys == t.Keys
    ensures forall id :: id in t && t[id].title == title ==> r[id] == Patch(t[id], p)
    ensures forall id :: id in t && t[id].title != title ==> r[id] == t[id]
  {
    map id | id in t :: if t[id].title == title then Patch(t[id], p) else t[id]
  }

  /** The table after `delete({ title })`: every row carrying that title is gone. */
  function DeleteWhereTitle(t: map<MovieId, Movie>, title: string): (r: map<MovieId, Movie>)
    ensures !HasTitle(r, title)
    ensures forall id :: id in t ==> (id in r <==> t[id].title != title)
    ensures forall id :: id in r ==> id in t && r[id] == t[id]
  {
    map id | id in t && t[id].title != title :: t[id]
  }

  /** An update keeps titles unique when it leaves the title alone, rewrites
      it to the title it was looked up by, or renames onto a title no row
      carries yet. */
  lemma UpdateOntoFreeTitleKeepsTitlesUnique(t: map<MovieId, Movie>, title: string, p: MoviePatch)
    requires UniqueTitles(t)
    requires p.title.None? || p.title == Some(title) || !HasTitle(t, p.title.value)
    ensures UniqueTitles(UpdateWhereTitle(t, title, p))
  {
    var u := UpdateWhereTitle(t, title, p);
    forall i, j | i in u && j in u && u[i].title == u[j].title
      ensures i == j
    {
      if p.title.None? || p.title == Some(title) {
        assert u[i].title == t[i].title && u[j].title == t[j].title;
      }
    }
  }

  /** The update path does not re-check uniqueness: renaming a movie onto
      a title another row already carries leaves two rows with that title. */
  lemma RenameOntoTakenTitleBreaksUniqueness(t: map<MovieId, Movie>, title: string, other: string, p: MoviePatch)
    requires HasTitle(t, title) && HasTitle(t, other) && title != other
    requires p.title == Some(other)
    ensures !UniqueTitles(UpdateWhereTitle(t, title, p))
  {
    var i :| i in t && t[i].title == title;
    var j :| j in t && t[j].title == other;
    var u := UpdateWhereTitle(t, title, p);
    assert u[i].title == other && u[j].title == other;
  }

  /** With unique titles, delete-by-title removes exactly one row: the one
      the lookup found. */
  lemma DeleteRemovesExactlyOneRow(t: map<MovieId, Movie>, title: string)
    requires UniqueTitles(t) && HasTitle(t, title)
    ensures exists id :: id in t && t[id].title == title && DeleteWhereTitle(t, title) == t - {id}
    ensures |DeleteWhereTitle(t, title)| == |t| - 1
  {
    var id :| id in t && t[id].title == title;
    var d := DeleteWhereTitle(t, title);
    forall k | k in t && k != id
      ensures k in d
    {
      assert t[k].title != t[id].title;
    }
    assert d.Keys == t.Keys - {id};
    assert d == t - {id};
  }

  /** The catalog service, owning the movie table. */
  class MovieService {
    var movies: map<MovieId, Movie>
    var nextId: nat

    /** Every row carries an id the id supply has already handed out. */
    ghost predicate Valid()
      reads this
    {
      forall id :: id in movies ==> 0 <= id < nextId
    }

    constructor ()
      ensures Valid() && movies == map[]
    {
      movies := map[];
      nextId := 0;
    }

    /** createMovie: reject a taken title, otherwise save the input under a
        fresh id. `storageFails` says whether the save step fails. */
    method CreateMovie(m: Movie, currentYear: int, storageFails: bool) returns (r: Outcome<(MovieId, Movie)>)
      requires Valid() && ValidNewMovie(m, currentYear)
      modifies this
      ensures Valid()
      ensures HasTitle(old(movies), m.title) ==> r == Conflict && movies == old(movies)
      ensures !HasTitle(old(movies), m.title) && storageFails ==> r == Unexpected && movies == old(movies)
      ensures !HasTitle(old(movies), m.title) && !storageFails ==>
                && r.Ok? && r.value.1 == m
                && r.value.0 !in old(movies)
                && movies == old(movies)[r.value.0 := m]
      ensures r.Ok? ==> r.value.0 == old(nextId) && nextId == old(nextId) + 1
      ensures !r.Ok? ==> nextId == old(nextId)
      ensures UniqueTitles(old(movies)) ==> UniqueTitles(movies)
    {
      if HasTitle(movies, m.title) {
        return Conflict;
      }
      if storageFails {
        return Unexpected;
      }
      var id := nextId;
      movies := movies[id := m];
      nextId := nextId + 1;
      r := Ok((id, m));
    }

    /** getAllMovies: the whole table, unless the read fails. */
    method GetAllMovies(storageFails: bool) returns (r: Outcome<map<MovieId, Movie>>)
      ensures r.Ok? <==> !storageFails
      ensures r.Ok? ==> r.value == movies
      ensures !r.Ok? ==> r == Unexpected
    {
      if storageFails {
        return Unexpected;
      }
      r := Ok(movies);
    }

    /** getMovieById: the row with that id, or NotFound. */
    method GetMovieById(id: MovieId) returns (r: Outcome<Movie>)
      ensures r.Ok? <==> id in movies
      ensures r.Ok? ==> r.value == movies[id]
      ensures !r.Ok? ==> r == NotFound
    {
      if id !in movies {
        return NotFound;
      }
      r := Ok(movies[id]);
    }

    /** updateMovieByTitle: NotFound when no row carries `title`; otherwise
        the patch goes to every row carrying it, without re-checking that
        titles stay unique. */
    method UpdateMovieByTitle(title: string, p: MoviePatch, storageFails: bool) returns (r: Outcome<()>)
      requires Valid()
      modifies this
      ensures Valid()
      ensures !HasTitle(old(movies), title) ==> r == NotFound && movies == old(movies)
      ensures HasTitle(old(movies), title) && storageFails ==> r == Unexpected && movies == old(movies)
      ensures HasTitle(old(movies), title) && !storageFails ==>
                && r == Ok(())
                && movies == UpdateWhereTitle(old(movies), title, p)
                && movies.Keys == old(movies).Keys
                && (forall id :: id in old(movies) && old(movies)[id].title != title ==> movies[id] == old(movies)[id])
                && (forall id :: id in old(movies) && old(movies)[id].title == title ==> movies[id] == Patch(old(movies)[id], p))
      ensures (p.title.None? || p.title == Some(title) || !HasTitle(old(movies), p.title.value)) && UniqueTitles(old(movies)) ==>
                UniqueTitles(movies)
      ensures nextId == old(nextId)
    {
      if !HasTitle(movies, title) {
        return NotFound;
      }
      if storageFails {
        return Unexpected;
      }
      if (p.title.None? || p.title == Some(title) || !HasTitle(movies, p.title.value)) && UniqueTitles(movies) {
        UpdateOntoFreeTitleKeepsTitlesUnique(movies, title, p);
      }
      movies := UpdateWhereTitle(movies, title, p);
      r := Ok(());
    }

    /** deleteMovieByTitle: NotFound when no row carries `title`; otherwise
        every row carrying it is removed and no other row changes. */
    method DeleteMovieByTitle(title: string, storageFails: bool) returns (r: Outcome<()>)
      requires Valid()
      modifies this
      ensures Valid()
      ensures !HasTitle(old(movies), title) ==> r == NotFound && movies == old(movies)
      ensures HasTitle(old(movies), title) && storageFails ==> r == Unexpected && movies == old(movies)
      ensures HasTitle(old(movies), title) && !storageFails ==>
                && r == Ok(())
                && movies == DeleteWhereTitle(old(movies), title)
                && !HasTitle(movies, title)
                && (forall id :: id in old(movies) ==> (id in movies <==> old(movies)[id].title != title))
                && (forall id :: id in movies ==> movies[id] == old(movies)[id])
      ensures UniqueTitles(old(movies)) ==> UniqueTitles(movies)
      ensures nextId == old(nextId)
    {
      if !HasTitle(movies, title) {
        return NotFound;
      }
      if storageFails {
        return Unexpected;
      }
      movies := DeleteWhereTitle(movies, title);
      r := Ok(());
    }
  }
}
