/** The creation form of the client: its fields, the checks run on submit,
    and the multipart body handed to the manager's callback. */
module CreateForm {
  import opened Wrappers
  import opened Text
  import GenreEnum
  import opened Types

  /** The options of the genre select, as written in the form. */
  function GenreOptions(): (r: seq<string>)
    ensures |r| == 18
  {
    [ "Action", "Adventure", "Animation", "Biography", "Comedy", "Documentary",
      "Drama", "Fiction", "Fantasy", "History", "Horror", "Music",
      "Police", "Romance", "Sci-Fi", "Thriller", "War", "Western" ]
  }

  /** The hard-coded options are the labels of the genre constant, in order. */
  lemma GenreOptionsAreLabels()
    ensures GenreOptions() == GenreConstant()
    ensures GenreOptions() == GenreEnum.Labels()
  {
    GenreEnum.EveryCaseListed();
    GenreEnum.IsLabelList(GenreOptions());
    GenreConstantIsLabels();
  }

  /** The form as first shown and as reset after a creation. */
  function DefaultForm(): (f: MovieFormData)
    ensures f.title == "" && f.description == "" && f.genre == GenreEnum.Action
    ensures f.duration == Finite(90.0) && f.releaseDate == "" && f.image.None?
  {
    MovieFormData("", "", GenreEnum.Action, Finite(90.0), "", None)
  }

  const TitleRequired := "Le titre est obligatoire"
  const GenreRequired := "Le genre est obligatoire"
  const DurationNotPositive := "La durée doit être positive"
  const ReleaseDateRequired := "La date de sortie est obligatoire"
  const UnknownError := "Erreur inconnue"

  /** `!duration || duration <= 0` fails: NaN, zero and negative numbers,
      including negative infinity, are rejected. */
  predicate DurationPositive(n: JsNumber)
    ensures DurationPositive(n) ==> !n.NaN? && n != Finite(0.0) && n != Infinite(false)
    ensures n.Finite? && n.value < 0.0 ==> !DurationPositive(n)
  {
    match n
    case Finite(x) => x > 0.0
    case Infinite(positive) => positive
    case NaN => false
  }

  /** The checks of `handleSubmit`, in their order; the first that fails
      gives the message shown. `None` when all pass. */
  function Validate(f: MovieFormData): (r: Option<string>)
    ensures r.None? <==>
      Trim(f.title) != [] && GenreEnum.Value(f.genre) != [] && DurationPositive(f.duration)
      && f.releaseDate != []
    ensures r == Some(TitleRequired) <==> Trim(f.title) == []
    ensures r == Some(GenreRequired) <==> Trim(f.title) != [] && GenreEnum.Value(f.genre) == []
    ensures r == Some(DurationNotPositive) <==>
      Trim(f.title) != [] && GenreEnum.Value(f.genre) != [] && !DurationPositive(f.duration)
    ensures r == Some(ReleaseDateRequired) <==>
      Trim(f.title) != [] && GenreEnum.Value(f.genre) != [] && DurationPositive(f.duration)
      && f.releaseDate == []
  {
    if Trim(f.title) == [] then Some(TitleRequired)
    else if GenreEnum.Value(f.genre) == [] then Some(GenreRequired)
    else if !DurationPositive(f.duration) then Some(DurationNotPositive)
    else if f.releaseDate == [] then Some(ReleaseDateRequired)
    else None
  }

  /** The title check fails exactly for a title made only of white space. */
  lemma TitleCheckIsBlank(f: MovieFormData)
    ensures Validate(f) == Some(TitleRequired) <==> Blank(f.title)
  {
    TrimEmptyIffBlank(f.title);
  }

  /** The genre check never fires: the select always holds a label. */
  lemma GenreCheckNeverFires(f: MovieFormData)
    ensures Validate(f) != Some(GenreRequired)
  {
    GenreEnum.CaseOfOwnKey(f.genre);
  }

  /** The defaults fail only on the empty title; a title that is not blank
      and a date are all they need to pass. */
  lemma DefaultsNeedTitleAndDate(title: string, date: string)
    ensures Validate(DefaultForm()) == Some(TitleRequired)
    ensures !Blank(title) && date != [] ==>
      Validate(DefaultForm().(title := title, releaseDate := date)).None?
  {
    TrimEmptyIffBlank("");
    TrimEmptyIffBlank(title);
    GenreEnum.CaseOfOwnKey(GenreEnum.Action);
  }

  /** The body handed to `onCreated`: the `data` part holds exactly the five
      fields; the `image` part is there exactly when a file was chosen. */
  function Payload(f: MovieFormData): (p: Multipart)
    ensures p.data == BodyOf(f)
    ensures p.image.Some? <==> f.image.Some?
    ensures p.image.Some? ==> p.image == f.image
  {
    Multipart(BodyOf(f), f.image)
  }

  /** The message shown for an error thrown by the callback. */
  function ThrownMessage(message: string): (r: string)
    ensures r != ""
    ensures message != "" ==> r == message
    ensures message == "" ==> r == UnknownError
  {
    if message == "" then UnknownError else message
  }

  /** The state of the `MovieCreateForm` component. */
  class CreateFormState {
    var form: MovieFormData
    var error: Option<string>
    var loading: bool

    constructor ()
      ensures form == DefaultForm() && error.None? && !loading
    {
      form, error, loading := DefaultForm(), None, false;
    }

    /** `handleChange`. */
    method HandleChange(e: ChangeEvent)
      modifies this
      ensures form == WithChange(old(form), e)
      ensures error == old(error) && loading == old(loading)
    {
      form := WithChange(form, e);
    }

    /** `handleSubmit`, with `thrown` the message of the error `onCreated`
        throws, if it throws. A form that fails a check sends nothing; one
        that passes sends its payload, and is reset only if the callback
        succeeds. The submit button is disabled while loading; loading is
        off again at the end in every case. */
    method HandleSubmit(thrown: Option<string>) returns (sent: Option<Multipart>)
      requires !loading
      modifies this
      ensures !loading
      ensures Validate(old(form)).Some? ==>
        sent.None? && error == Validate(old(form)) && form == old(form)
      ensures Validate(old(form)).None? ==> sent == Some(Payload(old(form)))
      ensures Validate(old(form)).None? && thrown.None? ==>
        form == DefaultForm() && error.None?
      ensures Validate(old(form)).None? && thrown.Some? ==>
        form == old(form) && error == Some(ThrownMessage(thrown.value))
    {
      error := None;
      var invalid := Validate(form);
      if invalid.Some? {
        error := invalid;
        return None;
      }
      loading := true;
      sent := Some(Payload(form));
      if thrown.None? {
        form := DefaultForm();
      } else {
        error := Some(ThrownMessage(thrown.value));
      }
      loading := false;
    }
  }
}
