/** The client's shared types: the label constant of the genres, the movie
    record, its transfer shapes, and the state of a movie form. */
module Types {
  import opened Wrappers
  import opened Text
  import opened GenreEnum

  /** `Object.values(Genre)` for the client's label constant, as declared. */
  function GenreConstant(): (r: seq<string>)
    ensures |r| == 18
  {
    [ "Action", "Adventure", "Animation", "Biography", "Comedy", "Documentary",
      "Drama", "Fiction", "Fantasy", "History", "Horror", "Music",
      "Police", "Romance", "Sci-Fi", "Thriller", "War", "Western" ]
  }

  /** The client's constant holds the server's labels, in the same order. */
  lemma GenreConstantIsLabels()
    ensures GenreConstant() == Labels()
  {
    EveryCaseListed();
    IsLabelList(GenreConstant());
  }

  /** The client's constant has eighteen pairwise distinct labels. */
  lemma GenreConstantDistinct()
    ensures |GenreConstant()| == 18
    ensures forall i, j :: 0 <= i < j < 18 ==> GenreConstant()[i] != GenreConstant()[j]
  {
    GenreConstantIsLabels();
    LabelsDistinct();
  }

  /** The `Genre` type is the union of the constant's values: a string is one
      of them exactly when it names a case, and every case's label is one. */
  lemma GenreTypeIsConstantValues(s: string)
    ensures s in GenreConstant() <==> TryFrom(s).Some?
    ensures TryFrom(s).Some? ==> Value(TryFrom(s).value) in GenreConstant()
  {
    GenreConstantIsLabels();
    TryFromAcceptsExactlyLabels(s);
  }

  /** A movie as the client holds it: every field may be null. The image
      name is not declared by the type but is carried by every object the
      client builds. */
  datatype Movie = Movie(
    id: Option<int>,
    title: Option<string>,
    description: Option<string>,
    genre: Option<Genre>,
    duration: Option<int>,
    releaseDate: Option<string>,
    image: Option<string>)

  /** `CreateMovieDto`: a movie without its id. */
  datatype CreateMovieDto = CreateMovieDto(
    title: Option<string>,
    description: Option<string>,
    genre: Option<Genre>,
    duration: Option<int>,
    releaseDate: Option<string>)

  /** `UpdateMovieDto`: a required id, and every other field optional; an
      optional field is either absent (`None`) or present with a value that
      may be null (`Some(None)`). */
  datatype UpdateMovieDto = UpdateMovieDto(
    id: int,
    title: Option<Option<string>>,
    description: Option<Option<string>>,
    genre: Option<Option<Genre>>,
    duration: Option<Option<int>>,
    releaseDate: Option<Option<string>>)

  /** `DeleteMovieDto`: just the id. */
  datatype DeleteMovieDto = DeleteMovieDto(id: int)

  /** The creation shape of a movie: `Omit<Movie, 'id'>`. */
  function CreateDtoOf(m: Movie): (dto: CreateMovieDto)
    ensures dto.title == m.title && dto.description == m.description && dto.genre == m.genre
    ensures dto.duration == m.duration && dto.releaseDate == m.releaseDate
  {
    CreateMovieDto(m.title, m.description, m.genre, m.duration, m.releaseDate)
  }

  /** A creation shape completed with an id. */
  function WithId(dto: CreateMovieDto, id: Option<int>): (m: Movie)
    ensures m.id == id && m.image == None
    ensures CreateDtoOf(m) == dto
  {
    Movie(id, dto.title, dto.description, dto.genre, dto.duration, dto.releaseDate, None)
  }

  /** Omitting the id and putting it back loses only the image. */
  lemma CreateDtoRoundTrip(m: Movie)
    ensures WithId(CreateDtoOf(m), m.id) == m.(image := None)
  {
  }

  /** The update shape that carries every declared field of a movie with an id. */
  function FullUpdateDto(m: Movie, id: int): (dto: UpdateMovieDto)
    ensures dto.id == id
    ensures dto.title == Some(m.title) && dto.description == Some(m.description)
    ensures dto.genre == Some(m.genre) && dto.duration == Some(m.duration)
    ensures dto.releaseDate == Some(m.releaseDate)
  {
    UpdateMovieDto(id, Some(m.title), Some(m.description), Some(m.genre), Some(m.duration), Some(m.releaseDate))
  }

  /** The update shape with nothing but the id. */
  function EmptyUpdateDto(id: int): (dto: UpdateMovieDto)
    ensures dto.id == id
    ensures dto.title.None? && dto.description.None? && dto.genre.None?
    ensures dto.duration.None? && dto.releaseDate.None?
  {
    UpdateMovieDto(id, None, None, None, None, None)
  }

  /** A JavaScript number, as `Number(...)` can produce it. */
  datatype JsNumber = Finite(value: real) | Infinite(positive: bool) | NaN

  /** A file picked in a file input; only its identity matters here. */
  datatype File = File(name: string)

  /** `MovieFormData`, with the image a file input may add to it. The genre
      and the duration are never null. */
  datatype MovieFormData = MovieFormData(
    title: string,
    description: string,
    genre: Genre,
    duration: JsNumber,
    releaseDate: string,
    image: Option<File>)

  /** A change event from one of the form's inputs: the file input passes
      its first file, the number input the result of `Number(value)`, the
      genre select one of its options, the other inputs their text. */
  datatype ChangeEvent =
    | TitleInput(text: string)
    | DescriptionInput(text: string)
    | GenreInput(genre: Genre)
    | DurationInput(number: JsNumber)
    | ReleaseDateInput(text: string)
    | ImageInput(file: Option<File>)

  /** `handleChange` of both forms: the named field takes the event's value,
      every other field keeps its own. */
  function WithChange(form: MovieFormData, e: ChangeEvent): (r: MovieFormData)
    ensures e.TitleInput? ==> r == form.(title := e.text)
    ensures e.DescriptionInput? ==> r == form.(description := e.text)
    ensures e.GenreInput? ==> r == form.(genre := e.genre)
    ensures e.DurationInput? ==> r == form.(duration := e.number)
    ensures e.ReleaseDateInput? ==> r == form.(releaseDate := e.text)
    ensures e.ImageInput? ==> r == form.(image := e.file)
  {
    match e
    case TitleInput(t) => form.(title := t)
    case DescriptionInput(t) => form.(description := t)
    case GenreInput(g) => form.(genre := g)
    case DurationInput(n) => form.(duration := n)
    case ReleaseDateInput(t) => form.(releaseDate := t)
    case ImageInput(f) => form.(image := f)
  }

  /** The field an event writes. */
  datatype Field = Title | Description | GenreField | Duration | ReleaseDate | Image

  function FieldOf(e: ChangeEvent): Field {
    match e
    case TitleInput(_) => Title
    case DescriptionInput(_) => Description
    case GenreInput(_) => GenreField
    case DurationInput(_) => Duration
    case ReleaseDateInput(_) => ReleaseDate
    case ImageInput(_) => Image
  }

  /** Two events on different inputs commute, and a second event on the same
      input overrides the first. */
  lemma ChangesCommute(form: MovieFormData, e1: ChangeEvent, e2: ChangeEvent)
    ensures FieldOf(e1) != FieldOf(e2) ==>
      WithChange(WithChange(form, e1), e2) == WithChange(WithChange(form, e2), e1)
    ensures FieldOf(e1) == FieldOf(e2) ==>
      WithChange(WithChange(form, e1), e2) == WithChange(form, e2)
  {
  }

  /** The JSON object both forms send: exactly these five fields, the genre
      as its label. */
  datatype MovieBody = MovieBody(
    title: string,
    description: string,
    genre: string,
    duration: JsNumber,
    releaseDate: string)

  function BodyOf(form: MovieFormData): (b: MovieBody)
    ensures b.title == form.title && b.description == form.description
    ensures TryFrom(b.genre) == Some(form.genre)
    ensures b.duration == form.duration && b.releaseDate == form.releaseDate
  {
    TryFromValue(form.genre);
    MovieBody(form.title, form.description, Value(form.genre), form.duration, form.releaseDate)
  }

  /** A multipart body: a `data` part with the JSON of the fields, and an
      `image` part when a file is attached. */
  datatype Multipart = Multipart(data: MovieBody, image: Option<File>)
}
