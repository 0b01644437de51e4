/** How the client's forms and the server's controller fit together: the
    JSON body a form writes, read back as the request the controller
    decodes, and the array the controller answers with, read back as the
    client's movie. */
module EndToEnd {
  import opened Wrappers
  import opened Types
  import GenreEnum
  import Entity
  import Controller
  import Manager
  import CreateForm
  import EditForm

  /** `JSON.stringify` of a number: a finite number is written as itself,
      NaN and the infinities as null. */
  function WireNumber(n: JsNumber): (r: Option<real>)
    ensures r.Some? <==> n.Finite?
    ensures n.Finite? ==> r.value == n.value
  {
    if n.Finite? then Some(n.value) else None
  }

  /** The request the controller decodes from a form's JSON body: every
      string field is present, the duration only when it is finite. */
  function Wire(b: MovieBody): (req: Controller.MovieRequest)
    ensures req.title == Some(b.title) && req.description == Some(b.description)
    ensures req.genre == Some(b.genre) && req.releaseDate == Some(b.releaseDate)
    ensures req.duration == WireNumber(b.duration)
  {
    Controller.MovieRequest(Some(b.title), Some(b.description), Some(b.genre),
                            WireNumber(b.duration), Some(b.releaseDate))
  }

  /** A form that passes the creation form's checks also passes the
      controller's, unless its duration is infinite: `Infinity > 0` holds on
      the client, but the number reaches the server as null. An accepted
      form becomes a row holding its fields. */
  lemma CreateChecksAgree(f: MovieFormData, id: int)
    requires CreateForm.Validate(f).None?
    ensures Controller.CreateError(Wire(BodyOf(f))).None? <==> f.duration.Finite?
    ensures f.duration.Infinite? ==>
      Controller.CreateError(Wire(BodyOf(f))) == Some(Controller.MissingRequiredFields)
    ensures f.duration.Finite? ==>
      Controller.NewRecord(Wire(BodyOf(f)), id) ==
        Entity.MovieData(Some(id), Some(f.title), Some(f.description), Some(f.genre),
                         Some(Controller.IntCast(f.duration.value)), Some(f.releaseDate), None)
  {
    var req := Wire(BodyOf(f));
    GenreEnum.AcceptedAreLabels(req.genre.value);
    if f.duration.Finite? {
      Controller.NewRecordFields(req, id, f.genre);
    }
  }

  /** The edit form's JSON `PUT` is always accepted on a stored row, and
      sets every field the form holds; an infinite or NaN duration is sent
      as null and leaves the stored duration as it was. */
  lemma EditPutApplies(d: Entity.MovieData, f: MovieFormData)
    ensures Controller.UpdateResult(d, Wire(BodyOf(f))).Success?
    ensures Controller.UpdateResult(d, Wire(BodyOf(f))).value ==
      d.(title := Some(f.title), description := Some(f.description), genre := Some(f.genre),
         duration := if f.duration.Finite? then Some(Controller.IntCast(f.duration.value)) else d.duration,
         releaseDate := Some(f.releaseDate))
  {
    var req := Wire(BodyOf(f));
    GenreEnum.AcceptedAreLabels(req.genre.value);
    var r := Controller.UpdateResult(d, req).value;
    GenreEnum.ValueInjective(r.genre.value, f.genre);
  }

  /** The value of a field of an update shape, or nothing when the field is
      absent or null: `JSON.stringify` drops an absent field and writes null
      for a null one, and `isset` treats the two alike. */
  function Given<T>(field: Option<Option<T>>): (r: Option<T>)
    ensures r.Some? <==> field.Some? && field.value.Some?
    ensures r.Some? ==> r.value == field.value.value
  {
    if field.Some? then field.value else None
  }

  /** The request the controller decodes from the JSON of an update shape;
      the id travels in the path, not in the body. */
  function DtoRequest(dto: UpdateMovieDto): (req: Controller.MovieRequest)
    ensures req.title == Given(dto.title) && req.description == Given(dto.description)
    ensures req.releaseDate == Given(dto.releaseDate)
    ensures req.genre.Some? <==> Given(dto.genre).Some?
    ensures req.genre.Some? ==> req.genre.value == GenreEnum.Value(Given(dto.genre).value)
    ensures req.duration.Some? <==> Given(dto.duration).Some?
    ensures req.duration.Some? ==> req.duration.value == Given(dto.duration).value as real
  {
    var genre := if Given(dto.genre).Some? then Some(GenreEnum.Value(Given(dto.genre).value)) else None;
    var duration := if Given(dto.duration).Some? then Some(Given(dto.duration).value as real) else None;
    Controller.MovieRequest(Given(dto.title), Given(dto.description), genre, duration, Given(dto.releaseDate))
  }

  /** An update shape is the partial update the controller applies: it is
      always accepted, each field present and not null replaces the stored
      one, and every other field, the id and the image stay. */
  lemma DtoUpdateApplies(d: Entity.MovieData, dto: UpdateMovieDto)
    ensures Controller.UpdateResult(d, DtoRequest(dto)).Success?
    ensures Controller.UpdateResult(d, DtoRequest(dto)).value ==
      d.(title := Controller.Override(d.title, Given(dto.title)),
         description := Controller.Override(d.description, Given(dto.description)),
         genre := Controller.Override(d.genre, Given(dto.genre)),
         duration := Controller.Override(d.duration, Given(dto.duration)),
         releaseDate := Controller.Override(d.releaseDate, Given(dto.releaseDate)))
  {
    var req := DtoRequest(dto);
    if Given(dto.genre).Some? {
      var g := Given(dto.genre).value;
      GenreEnum.TryFromValue(g);
      GenreEnum.AcceptedAreLabels(req.genre.value);
      var r := Controller.UpdateResult(d, req).value;
      GenreEnum.ValueInjective(r.genre.value, g);
    }
    if Given(dto.duration).Some? {
      IntCastOfWhole(Given(dto.duration).value);
    }
  }

  /** The update shape with only the id leaves the row as it is. */
  lemma EmptyUpdateKeepsRow(d: Entity.MovieData, id: int)
    ensures Controller.UpdateResult(d, DtoRequest(EmptyUpdateDto(id))) == Success(d)
  {
    DtoUpdateApplies(d, EmptyUpdateDto(id));
  }

  /** The update shape carrying every field of a movie whose fields are all
      set gives the row exactly those fields, keeping its id and image. */
  lemma FullUpdateSetsEveryField(d: Entity.MovieData, m: Movie, id: int)
    requires m.title.Some? && m.description.Some? && m.genre.Some?
    requires m.duration.Some? && m.releaseDate.Some?
    ensures Controller.UpdateResult(d, DtoRequest(FullUpdateDto(m, id))) ==
      Success(d.(title := m.title, description := m.description, genre := m.genre,
                 duration := m.duration, releaseDate := m.releaseDate))
  {
    DtoUpdateApplies(d, FullUpdateDto(m, id));
  }

  /** The client's raw movie for an array of the controller: the image is
      never part of it. */
  function ReadRaw(a: Controller.MovieArray): (raw: Manager.RawMovie)
    ensures raw.id == a.id && raw.title == a.title && raw.description == a.description
    ensures raw.genre == a.genre && raw.duration == a.duration
    ensures raw.releaseDate == Some(a.releaseDate) && raw.image.None?
  {
    Manager.RawMovie(a.id, a.title, a.description, a.genre, a.duration, Some(a.releaseDate), None)
  }

  /** The movie the client holds for a row: its fields, without the image. */
  function ClientMovie(d: Entity.MovieData): (m: Movie)
    ensures m == Movie(d.id, d.title, d.description, d.genre, d.duration, d.releaseDate, None)
  {
    Movie(d.id, d.title, d.description, d.genre, d.duration, d.releaseDate, None)
  }

  /** The manager reads a stored row back exactly: `mapGenre` finds the
      case of the label `movieToArray` wrote. */
  lemma ManagerReadsRow(d: Entity.MovieData)
    requires d.releaseDate.Some?
    ensures Manager.TransformMovie(ReadRaw(Controller.MovieToArray(d))) == ClientMovie(d)
  {
    if d.genre.Some? {
      Manager.MapGenreValue(d.genre.value);
    }
  }

  /** A whole integer goes through `(int)` unchanged. */
  lemma IntCastOfWhole(n: int)
    ensures Controller.IntCast(n as real) == n
  {
  }

  /** Opening the edit form on a complete row and submitting it unchanged,
      without a file, leaves the row as it was, provided its date is no
      longer than the ten characters the form keeps and its description
      is not null. */
  lemma UnchangedEditKeepsRow(d: Entity.MovieData)
    requires Controller.Complete(d) && d.description.Some?
    requires |d.releaseDate.value| <= EditForm.DateLength
    ensures EditForm.RequestOf(d.id, EditForm.InitialForm(ClientMovie(d))).PutJson?
    ensures Controller.UpdateResult(d, Wire(BodyOf(EditForm.InitialForm(ClientMovie(d))))) == Success(d)
  {
    var f := EditForm.InitialForm(ClientMovie(d));
    Text.PrefixIdempotent(d.releaseDate.value, EditForm.DateLength);
    IntCastOfWhole(d.duration.value);
    EditPutApplies(d, f);
  }

  /** The movie the controller answers an edit with, as the edit form reads
      it: the labels of the server are read back through `tryFrom`. */
  function ReadMovie(a: Controller.MovieArray): (m: Movie)
    ensures m.id == a.id && m.title == a.title && m.description == a.description
    ensures m.genre == (if a.genre.Some? then GenreEnum.TryFrom(a.genre.value) else None)
    ensures m.duration == a.duration && m.releaseDate == Some(a.releaseDate) && m.image.None?
  {
    var genre := if a.genre.Some? then GenreEnum.TryFrom(a.genre.value) else None;
    Movie(a.id, a.title, a.description, genre, a.duration, Some(a.releaseDate), None)
  }

  /** After an accepted edit without a file, the movie `onUpdated` receives
      holds exactly the fields of the form, with a date cut to ten
      characters, and the id of the row. */
  lemma EditHandsBackForm(d: Entity.MovieData, f: MovieFormData)
    requires f.duration.Finite? && d.releaseDate.Some?
    ensures
      var row := Controller.UpdateResult(d, Wire(BodyOf(f))).value;
      var date := if f.releaseDate == "" then "" else Text.Prefix(f.releaseDate, EditForm.DateLength);
      EditForm.TransformMovie(ReadMovie(Controller.MovieToArray(row))) ==
        Movie(d.id, Some(f.title), Some(f.description), Some(f.genre),
              Some(Controller.IntCast(f.duration.value)), Some(date), None)
  {
    EditPutApplies(d, f);
    GenreEnum.TryFromValue(f.genre);
  }
}
