/** The edit form of the client: the form filled in from a movie, the
    request it sends, and the movie it hands back to the manager. */
module EditForm {
  import opened Wrappers
  import opened Text
  import GenreEnum
  import opened Types

  /** The calendar-date part of a date string: its first ten characters. */
  const DateLength: nat := 10

  /** The form shown for a movie: null title and description become empty,
      a null genre becomes Action, a null duration 90, and the date is cut to
      its first ten characters, or empty when null. No file is attached. */
  function InitialForm(m: Movie): (f: MovieFormData)
    ensures f.title == m.title.GetOr("") && f.description == m.description.GetOr("")
    ensures f.genre == m.genre.GetOr(GenreEnum.Action)
    ensures m.duration.Some? ==> f.duration == Finite(m.duration.value as real)
    ensures m.duration.None? ==> f.duration == Finite(90.0)
    ensures m.releaseDate.None? ==> f.releaseDate == ""
    ensures m.releaseDate.Some? ==> f.releaseDate == Prefix(m.releaseDate.value, DateLength)
    ensures f.image.None?
  {
    var duration := if m.duration.Some? then m.duration.value as real else 90.0;
    var date := if m.releaseDate.Some? then Prefix(m.releaseDate.value, DateLength) else "";
    MovieFormData(m.title.GetOr(""), m.description.GetOr(""), m.genre.GetOr(GenreEnum.Action),
                  Finite(duration), date, None)
  }

  /** `transformMovie` of the edit form: every field kept, except the date,
      which becomes its first ten characters, or empty when null or empty. */
  function TransformMovie(m: Movie): (r: Movie)
    ensures r == m.(releaseDate := r.releaseDate)
    ensures r.releaseDate.Some? && |r.releaseDate.value| <= DateLength
    ensures m.releaseDate.Some? ==> r.releaseDate.value <= m.releaseDate.value
    ensures m.releaseDate.Some? && |m.releaseDate.value| >= DateLength ==>
      |r.releaseDate.value| == DateLength
    ensures m.releaseDate.Some? && |m.releaseDate.value| <= DateLength ==>
      r.releaseDate == m.releaseDate
    ensures m.releaseDate.None? ==> r.releaseDate == Some("")
  {
    var date := if m.releaseDate.Some? && m.releaseDate.value != "" then Prefix(m.releaseDate.value, DateLength) else "";
    m.(releaseDate := Some(date))
  }

  /** Transforming twice is transforming once: a date of at most ten
      characters is its own ten-character prefix. */
  lemma TransformMovieIdempotent(m: Movie)
    ensures TransformMovie(TransformMovie(m)) == TransformMovie(m)
  {
    if m.releaseDate.Some? && m.releaseDate.value != "" {
      PrefixIdempotent(m.releaseDate.value, DateLength);
    }
  }

  /** Opening the form again on the transformed movie shows the same form as
      on the original one. */
  lemma InitialFormAfterTransform(m: Movie)
    ensures InitialForm(TransformMovie(m)) == InitialForm(m)
  {
    if m.releaseDate.Some? && m.releaseDate.value != "" {
      PrefixIdempotent(m.releaseDate.value, DateLength);
    }
  }

  /** The request the form sends for the movie with id `id`. */
  datatype EditRequest =
    | PostMultipart(id: Option<int>, parts: Multipart)
    | PutJson(id: Option<int>, body: MovieBody)

  /** With a file, a multipart `POST` with the `data` and `image` parts;
      without, a JSON `PUT` of the same five fields. */
  function RequestOf(id: Option<int>, f: MovieFormData): (r: EditRequest)
    ensures r.id == id
    ensures r.PostMultipart? <==> f.image.Some?
    ensures r.PostMultipart? ==> r.parts == Multipart(BodyOf(f), f.image)
    ensures r.PutJson? ==> r.body == BodyOf(f)
  {
    if f.image.Some? then PostMultipart(id, Multipart(BodyOf(f), f.image))
    else PutJson(id, BodyOf(f))
  }

  /** How the request ends: the movie the server sends back, a non-ok status
      with the `error` field of its body (null when missing), or a thrown
      error with its message. */
  datatype UpdateOutcome =
    | Updated(movie: Movie)
    | Rejected(serverError: Option<string>)
    | Failed(message: string)

  const UpdateError := "Erreur lors de la modification"
  const UnknownError := "Erreur inconnue"

  /** The message shown for a failed request: the server's `error`, or the
      default when it is missing or empty; a thrown message, or the generic
      one when it is empty. */
  function FailureMessage(outcome: UpdateOutcome): (r: string)
    requires !outcome.Updated?
    ensures r != ""
    ensures outcome.Rejected? && outcome.serverError.Some? && outcome.serverError.value != "" ==>
      r == outcome.serverError.value
    ensures outcome.Rejected? && (outcome.serverError.None? || outcome.serverError.value == "") ==>
      r == UpdateError
    ensures outcome.Failed? ==> r == (if outcome.message == "" then UnknownError else outcome.message)
  {
    var message :=
      if outcome.Rejected? then
        (if outcome.serverError.Some? && outcome.serverError.value != "" then outcome.serverError.value
         else UpdateError)
      else outcome.message;
    if message == "" then UnknownError else message
  }

  /** The state of the `MovieEditForm` component for one movie. */
  class EditFormState {
    const movie: Movie
    var form: MovieFormData
    var error: Option<string>
    var loading: bool

    constructor (m: Movie)
      ensures movie == m && form == InitialForm(m) && error.None? && !loading
    {
      movie := m;
      form, error, loading := InitialForm(m), None, false;
    }

    /** `handleChange`. */
    method HandleChange(e: ChangeEvent)
      modifies this
      ensures form == WithChange(old(form), e)
      ensures error == old(error) && loading == old(loading)
    {
      form := WithChange(form, e);
    }

    /** `handleSubmit`: the request is chosen by whether a file is attached;
        on success `onUpdated` receives the transformed server movie, on
        failure the message is shown and `onUpdated` is not called. The
        form itself is left as it is, and loading is off at the end. The
        submit button is disabled while loading. */
    method HandleSubmit(outcome: UpdateOutcome) returns (request: EditRequest, updated: Option<Movie>)
      requires !loading
      modifies this
      ensures request == RequestOf(movie.id, old(form))
      ensures form == old(form) && !loading
      ensures outcome.Updated? ==> updated == Some(TransformMovie(outcome.movie)) && error.None?
      ensures !outcome.Updated? ==> updated.None? && error == Some(FailureMessage(outcome))
    {
      error := None;
      loading := true;
      if form.image.Some? {
        request := PostMultipart(movie.id, Multipart(BodyOf(form), form.image));
      } else {
        request := PutJson(movie.id, BodyOf(form));
      }
      match outcome {
        case Updated(m) =>
          updated := Some(TransformMovie(m));
        case Rejected(_) =>
          updated := None;
          error := Some(FailureMessage(outcome));
        case Failed(_) =>
          updated := None;
          error := Some(FailureMessage(outcome));
      }
      loading := false;
    }
  }
}
