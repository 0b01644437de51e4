/** The REST controller of the server, over a store of movie rows keyed by
    their generated id. */
module Controller {
  import opened Wrappers
  import opened GenreEnum
  import opened Entity

  /** A request body as `json_decode($content, true)` gives it: one entry per
      field the controller reads. `None` stands for a key that is absent or
      null, which is exactly what `isset` and `??` treat alike. JSON numbers
      are reals. */
  datatype MovieRequest = MovieRequest(
    title: Option<string>,
    description: Option<string>,
    genre: Option<string>,
    duration: Option<real>,
    releaseDate: Option<string>)

  /** PHP's `(int)` cast of a number: truncation toward zero. */
  function IntCast(x: real): (r: int)
    ensures 0.0 <= x ==> r as real <= x < r as real + 1.0
    ensures x < 0.0 ==> r as real - 1.0 < x <= r as real
  {
    if 0.0 <= x then x.Floor else -((-x).Floor)
  }

  /** The array `movieToArray` builds: every field but the image, the genre
      as its backing string and the release date formatted. */
  datatype MovieArray = MovieArray(
    id: Option<int>,
    title: Option<string>,
    description: Option<string>,
    genre: Option<string>,
    duration: Option<int>,
    releaseDate: string)

  /** `movieToArray`. The date's `format('c')` is the opaque date itself. */
  function MovieToArray(d: MovieData): (a: MovieArray)
    requires d.releaseDate.Some?
    ensures a.id == d.id && a.title == d.title && a.description == d.description
    ensures a.duration == d.duration && Some(a.releaseDate) == d.releaseDate
    ensures a.genre.Some? <==> d.genre.Some?
    ensures d.genre.Some? ==> a.genre.value == Value(d.genre.value)
  {
    var genre := if d.genre.Some? then Some(Value(d.genre.value)) else None;
    MovieArray(d.id, d.title, d.description, genre, d.duration, d.releaseDate.value)
  }

  /** The genre string of an array reads back, through `tryFrom`, as the
      row's genre: the array loses nothing but the image. */
  lemma MovieToArrayGenreReadsBack(d: MovieData)
    requires d.releaseDate.Some? && d.genre.Some?
    ensures TryFrom(MovieToArray(d).genre.value) == d.genre
  {
    TryFromValue(d.genre.value);
  }

  datatype Body =
    | MovieJson(movie: MovieArray)
    | MovieListJson(movies: seq<MovieArray>)
    | GenreListJson(genres: seq<string>)
    | ErrorJson(error: string)
    | MessageJson(message: string)

  /** A JSON response: its HTTP status and its body. */
  datatype Response = Response(status: int, body: Body)

  const MovieNotFound := "Movie not found"
  const MissingRequiredFields := "Missing required fields"
  const InvalidGenreValue := "Invalid genre value"
  const NotFound := Response(404, ErrorJson(MovieNotFound))

  /** What every stored row holds: creation demands these fields and no
      update ever sets one of them back to null. */
  predicate Complete(d: MovieData) {
    d.title.Some? && d.genre.Some? && d.duration.Some? && d.releaseDate.Some?
  }

  /** The checks of `createMovie`, in their order: the required fields
      first, then the genre. `None` when the request passes both. */
  function CreateError(req: MovieRequest): (r: Option<string>)
    ensures r.None? <==>
      req.title.Some? && req.genre.Some? && req.duration.Some? && req.releaseDate.Some?
      && req.genre.value in Labels()
    ensures r == Some(MissingRequiredFields) <==>
      req.title.None? || req.genre.None? || req.duration.None? || req.releaseDate.None?
    ensures r == Some(InvalidGenreValue) <==>
      req.title.Some? && req.genre.Some? && req.duration.Some? && req.releaseDate.Some?
      && req.genre.value !in Labels()
  {
    if req.title.None? || req.genre.None? || req.releaseDate.None? || req.duration.None? then
      Some(MissingRequiredFields)
    else
      TryFromAcceptsExactlyLabels(req.genre.value);
      if TryFrom(req.genre.value).None? then Some(InvalidGenreValue) else None
  }

  /** The row `createMovie` persists for an accepted request under a newly
      generated id. */
  function NewRecord(req: MovieRequest, id: int): (d: MovieData)
    requires CreateError(req).None?
    ensures d.id == Some(id)
    ensures d.title == req.title && d.description == req.description
    ensures d.genre.Some? && Value(d.genre.value) == req.genre.value
    ensures d.duration == Some(IntCast(req.duration.value))
    ensures d.releaseDate == req.releaseDate && d.image == None
    ensures Complete(d)
  {
    TryFromAcceptsExactlyLabels(req.genre.value);
    var genre := TryFrom(req.genre.value).value;
    MovieData(Some(id), Some(req.title.value), req.description, Some(genre),
              Some(IntCast(req.duration.value)), Some(req.releaseDate.value), None)
  }

  /** The record of an accepted request, field by field, given the case its
      genre label names. */
  lemma NewRecordFields(req: MovieRequest, id: int, genre: Genre)
    requires CreateError(req).None? && Value(genre) == req.genre.value
    ensures NewRecord(req, id) ==
      MovieData(Some(id), req.title, req.description, Some(genre),
                Some(IntCast(req.duration.value)), req.releaseDate, None)
  {
    ValueInjective(genre, NewRecord(req, id).genre.value);
  }

  /** A field of a partial update: the new value when one is given, the old
      one otherwise. */
  function Override<T>(old_: Option<T>, new_: Option<T>): (r: Option<T>)
    ensures new_.Some? ==> r == new_
    ensures new_.None? ==> r == old_
  {
    if new_.Some? then new_ else old_
  }

  /** What `updateMovie` makes of a stored row: each field present in the
      request replaces the stored one, the others stay. A genre that is not
      a label rejects the whole update. */
  function UpdateResult(d: MovieData, req: MovieRequest): (r: Result<MovieData, string>)
    ensures r.Failure? <==> req.genre.Some? && req.genre.value !in Labels()
    ensures r.Failure? ==> r.error == InvalidGenreValue
    ensures r.Success? ==>
      && r.value.id == d.id && r.value.image == d.image
      && (req.title.None? ==> r.value.title == d.title)
      && (req.title.Some? ==> r.value.title == req.title)
      && (req.description.None? ==> r.value.description == d.description)
      && (req.description.Some? ==> r.value.description == req.description)
      && (req.genre.None? ==> r.value.genre == d.genre)
      && (req.genre.Some? ==> r.value.genre.Some? && Value(r.value.genre.value) == req.genre.value)
      && (req.duration.None? ==> r.value.duration == d.duration)
      && (req.duration.Some? ==> r.value.duration == Some(IntCast(req.duration.value)))
      && (req.releaseDate.None? ==> r.value.releaseDate == d.releaseDate)
      && (req.releaseDate.Some? ==> r.value.releaseDate == req.releaseDate)
  {
    match req.genre
    case Some(s) =>
      TryFromAcceptsExactlyLabels(s);
      (match TryFrom(s)
       case None => Failure(InvalidGenreValue)
       case Some(g) => Success(Overwrite(d, req, Some(g))))
    case None =>
      Success(Overwrite(d, req, None))
  }

  /** The row after the assignments of a partial update, given the genre
      the request's label was looked up as. */
  function Overwrite(d: MovieData, req: MovieRequest, genre: Option<Genre>): (r: MovieData)
    ensures r.id == d.id && r.image == d.image
    ensures r.title == Override(d.title, req.title) && r.description == Override(d.description, req.description)
    ensures r.genre == Override(d.genre, genre) && r.releaseDate == Override(d.releaseDate, req.releaseDate)
    ensures req.duration.Some? ==> r.duration == Some(IntCast(req.duration.value))
    ensures req.duration.None? ==> r.duration == d.duration
  {
    var duration := if req.duration.Some? then Some(IntCast(req.duration.value)) else None;
    d.(title := Override(d.title, req.title),
       description := Override(d.description, req.description),
       genre := Override(d.genre, genre),
       duration := Override(d.duration, duration),
       releaseDate := Override(d.releaseDate, req.releaseDate))
  }

  /** An update keeps a row complete, and never clears its description. */
  lemma UpdateKeepsRowComplete(d: MovieData, req: MovieRequest)
    requires UpdateResult(d, req).Success?
    ensures Complete(d) ==> Complete(UpdateResult(d, req).value)
    ensures d.description.Some? ==> UpdateResult(d, req).value.description.Some?
  {
  }

  /** Sending the same update twice has the effect of sending it once. */
  lemma UpdateIdempotent(d: MovieData, req: MovieRequest)
    requires UpdateResult(d, req).Success?
    ensures UpdateResult(UpdateResult(d, req).value, req) == UpdateResult(d, req)
  {
    var genre := if req.genre.Some? then TryFrom(req.genre.value) else None;
    var once := Overwrite(d, req, genre);
    assert UpdateResult(d, req) == Success(once);
    assert UpdateResult(once, req) == Success(Overwrite(once, req, genre));
  }

  /** The body of `getMovieGenres`: the backing strings of `Genre::cases()`. */
  function GenresResponse(): (r: Response)
    ensures r.status == 200 && r.body.GenreListJson?
    ensures |r.body.genres| == 18 && forall g :: r.body.genres[Position(g)] == Value(g)
  {
    LabelsDistinct();
    forall g ensures Labels()[Position(g)] == Value(g) {
      PositionInCases(g);
    }
    Response(200, GenreListJson(Labels()))
  }

  /** An array in a listing is the array of the stored row with its id. */
  predicate Listed(rows: map<int, MovieData>, a: MovieArray) {
    a.id.Some? && a.id.value in rows && rows[a.id.value].releaseDate.Some?
    && a == MovieToArray(rows[a.id.value])
  }

  /** Some key of a non-empty set of keys; which one is left open. */
  method Pick(keys: set<int>) returns (k: int)
    requires keys != {}
    ensures k in keys
  {
    // an explicit step for the empty case, from which the verifier
    // justifies the choice below
    if forall x :: x !in keys {
      assert false;
    }
    k :| k in keys;
  }

  /** The arrays of all rows of a table, each row once, in the order the
      storage returns them (`array_map` over `findAll`). */
  method ListRows(rows: map<int, MovieData>) returns (movies: seq<MovieArray>)
    requires forall k :: k in rows ==> rows[k].id == Some(k) && rows[k].releaseDate.Some?
    ensures |movies| == |rows.Keys|
    ensures forall i :: 0 <= i < |movies| ==> Listed(rows, movies[i])
    ensures forall k :: k in rows ==> MovieToArray(rows[k]) in movies
  {
    var remaining := rows.Keys;
    movies := [];
    while remaining != {}
      invariant forall k :: k in remaining ==> k in rows
      invariant |movies| + |remaining| == |rows.Keys|
      invariant forall i :: 0 <= i < |movies| ==> Listed(rows, movies[i])
      invariant forall k :: k in rows && k !in remaining ==> MovieToArray(rows[k]) in movies
      decreases |remaining|
    {
      var k := Pick(remaining);
      var a := MovieToArray(rows[k]);
      assert Listed(rows, a);
      ghost var before := movies;
      movies := movies + [a];
      assert forall m :: m in before ==> m in movies;
      remaining := remaining - {k};
    }
  }

  /** What holds of the rows of the table: each is complete and filed under
      its own id, which the sequence has already handed out. */
  predicate Stored(rows: map<int, MovieData>, nextId: int) {
    forall k :: k in rows ==>
      && rows[k].id == Some(k) && k < nextId
      && rows[k].title.Some? && rows[k].genre.Some? && rows[k].duration.Some? && rows[k].releaseDate.Some?
  }

  /** Filing a complete row under the next id, and advancing the sequence,
      keeps the table well formed. */
  lemma InsertKeepsStored(rows: map<int, MovieData>, nextId: int, d: MovieData)
    requires Stored(rows, nextId)
    requires d.id == Some(nextId) && Complete(d)
    ensures nextId !in rows
    ensures Stored(rows[nextId := d], nextId + 1)
  {
  }

  /** Refiling a complete row under its own, existing id keeps the table
      well formed. */
  lemma ReplaceKeepsStored(rows: map<int, MovieData>, nextId: int, id: int, d: MovieData)
    requires Stored(rows, nextId) && id in rows
    requires d.id == Some(id) && Complete(d)
    ensures Stored(rows[id := d], nextId)
  {
  }

  /** The controller together with the rows it persists: a map from id to
      row, and the next id the database sequence will hand out. */
  class MovieController {
    var rows: map<int, MovieData>
    var nextId: int

    ghost predicate Valid()
      reads this
    {
      Stored(rows, nextId)
    }

    /** An empty table whose sequence starts at 1. */
    constructor ()
      ensures Valid() && rows == map[] && nextId == 1
    {
      rows := map[];
      nextId := 1;
    }

    /** `getMovies`: every stored row once, in an order the storage picks. */
    method GetMovies() returns (resp: Response)
      requires Valid()
      ensures resp.status == 200 && resp.body.MovieListJson?
      ensures |resp.body.movies| == |rows.Keys|
      ensures forall i :: 0 <= i < |resp.body.movies| ==> Listed(rows, resp.body.movies[i])
      ensures forall k :: k in rows ==> MovieToArray(rows[k]) in resp.body.movies
    {
      var movies := ListRows(rows);
      resp := Response(200, MovieListJson(movies));
    }

    /** `getMovie`: the row's array, or 404 for an unknown id. */
    method GetMovie(id: int) returns (resp: Response)
      requires Valid()
      ensures id !in rows ==> resp == NotFound
      ensures id in rows ==> resp.status == 200 && resp.body == MovieJson(MovieToArray(rows[id]))
    {
      if id !in rows {
        return NotFound;
      }
      resp := Response(200, MovieJson(MovieToArray(rows[id])));
    }

    /** `createMovie`: a rejected request stores nothing; an accepted one
        adds exactly one row, under a fresh id, and answers 201. */
    method CreateMovie(req: MovieRequest) returns (resp: Response)
      requires Valid()
      modifies this
      ensures Valid()
      ensures CreateError(req).Some? ==>
        resp == Response(400, ErrorJson(CreateError(req).value))
        && rows == old(rows) && nextId == old(nextId)
      ensures CreateError(req).None? ==>
        old(nextId) !in old(rows)
        && rows == old(rows)[old(nextId) := NewRecord(req, old(nextId))]
        && nextId == old(nextId) + 1
        && resp == Response(201, MovieJson(MovieToArray(NewRecord(req, old(nextId)))))
    {
      if req.title.None? || req.genre.None? || req.releaseDate.None? || req.duration.None? {
        return Response(400, ErrorJson(MissingRequiredFields));
      }
      if TryFrom(req.genre.value).None? {
        assert CreateError(req) == Some(InvalidGenreValue);
        return Response(400, ErrorJson(InvalidGenreValue));
      }
      var genre := From(req.genre.value).value;
      NewRecordFields(req, nextId, genre);
      var movie := BuildMovie(req, genre);
      var row := Persist(movie);
      resp := Response(201, MovieJson(MovieToArray(row)));
    }

    /** The setter chain of `createMovie`: a new entity with the request's
        fields and no id yet. */
    method BuildMovie(req: MovieRequest, genre: Genre) returns (movie: Movie)
      requires req.title.Some? && req.duration.Some? && req.releaseDate.Some?
      ensures fresh(movie)
      ensures movie.Data() == MovieData(None, req.title, req.description, Some(genre),
                                        Some(IntCast(req.duration.value)), req.releaseDate, None)
    {
      movie := new Movie();
      var m1 := movie.SetTitle(req.title.value);
      var m2 := m1.SetDescription(req.description);
      var m3 := m2.SetGenre(genre);
      var m4 := m3.SetDuration(IntCast(req.duration.value));
      var m5 := m4.SetReleaseDate(req.releaseDate.value);
    }

    /** `persist` and `flush` of a new entity: the sequence hands out the
        next id, the ORM writes it into the entity, and the row is stored
        under it. */
    method Persist(movie: Movie) returns (row: MovieData)
      requires Valid()
      requires movie.id.None? && Complete(movie.Data())
      modifies this, movie
      ensures Valid()
      ensures row == old(movie.Data()).(id := Some(old(nextId)))
      ensures movie.Data() == row
      ensures old(nextId) !in old(rows)
      ensures rows == old(rows)[old(nextId) := row] && nextId == old(nextId) + 1
    {
      var id, stored := nextId, rows;
      movie.id := Some(id);
      row := movie.Data();
      InsertKeepsStored(stored, id, row);
      rows := stored[id := row];
      nextId := id + 1;
    }

    /** `updateMovie`: 404 for an unknown id; otherwise the fields present in
        the request are written, and the row is stored only if no check
        failed before the flush. Success answers 201. */
    method UpdateMovie(id: int, req: MovieRequest) returns (resp: Response)
      requires Valid()
      modifies this
      ensures Valid() && nextId == old(nextId)
      ensures id !in old(rows) ==> resp == NotFound && rows == old(rows)
      ensures id in old(rows) && UpdateResult(old(rows)[id], req).Failure? ==>
        resp == Response(400, ErrorJson(InvalidGenreValue)) && rows == old(rows)
      ensures id in old(rows) && UpdateResult(old(rows)[id], req).Success? ==>
        var d := UpdateResult(old(rows)[id], req).value;
        rows == old(rows)[id := d] && resp == Response(201, MovieJson(MovieToArray(d)))
    {
      if id !in rows {
        return NotFound;
      }
      var table := rows;
      var stored := table[id];
      ghost var result := UpdateResult(stored, req);
      var movie := new Movie.Load(stored);
      var valid := AssignFields(movie, req);
      if !valid {
        // returned before the flush: the row keeps its old values
        assert result.Failure? && rows == table;
        return Response(400, ErrorJson(InvalidGenreValue));
      }
      var row := movie.Data();
      assert result == Success(row);
      UpdateKeepsRowComplete(stored, req);
      ReplaceKeepsStored(table, nextId, id, row);
      rows := table[id := row];
      resp := Response(201, MovieJson(MovieToArray(row)));
    }

    /** The assignments of `updateMovie`, field by field in the order of the
        source; a genre that is not a label stops them, with the title and
        description already written into the entity. */
    method AssignFields(movie: Movie, req: MovieRequest) returns (valid: bool)
      modifies movie
      ensures valid <==> UpdateResult(old(movie.Data()), req).Success?
      ensures valid ==> movie.Data() == UpdateResult(old(movie.Data()), req).value
      ensures !valid ==> movie.Data() == old(movie.Data()).(
        title := Override(old(movie.title), req.title),
        description := Override(old(movie.description), req.description))
    {
      if req.title.Some? {
        var _ := movie.SetTitle(req.title.value);
      }
      if req.description.Some? {
        var _ := movie.SetDescription(req.description);
      }
      if req.genre.Some? {
        var genre := TryFrom(req.genre.value);
        if genre.None? {
          return false;
        }
        var _ := movie.SetGenre(genre.value);
      }
      if req.duration.Some? {
        var _ := movie.SetDuration(IntCast(req.duration.value));
      }
      if req.releaseDate.Some? {
        var _ := movie.SetReleaseDate(req.releaseDate.value);
      }
      valid := true;
    }

    /** `deleteMovie`: 404 for an unknown id; otherwise that row alone is
        removed. */
    method DeleteMovie(id: int) returns (resp: Response)
      requires Valid()
      modifies this
      ensures Valid() && nextId == old(nextId)
      ensures id !in old(rows) ==> resp == NotFound && rows == old(rows)
      ensures id in old(rows) ==>
        rows == old(rows) - {id} && resp == Response(200, MessageJson("Movie deleted"))
    {
      if id !in rows {
        return NotFound;
      }
      rows := rows - {id};
      resp := Response(200, MessageJson("Movie deleted"));
    }

    /** `getMovieGenres`. */
    method GetMovieGenres() returns (resp: Response)
      ensures resp == GenresResponse()
    {
      resp := Response(200, GenreListJson(Labels()));
    }
  }
}
