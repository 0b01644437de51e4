/** The client's movie manager: the cached list of movies, the selected
    action, and the handlers that keep the list in step with the server. */
module Manager {
  import opened Wrappers
  import opened Text
  import GenreEnum
  import opened Types

  type Genre = GenreEnum.Genre

  /** A movie as the server's JSON delivers it, before `transformMovie`. */
  datatype RawMovie = RawMovie(
    id: Option<int>,
    title: Option<string>,
    description: Option<string>,
    genre: Option<string>,
    duration: Option<int>,
    releaseDate: Option<string>,
    image: Option<string>)

  /** The first case of `cs` whose label equals `s` ignoring case. */
  function FindIgnoringCase(cs: seq<Genre>, s: string): (r: Option<Genre>)
    ensures r.Some? ==> r.value in cs && EqualsIgnoreCase(GenreEnum.Value(r.value), s)
    ensures r.None? ==> forall g :: g in cs ==> !EqualsIgnoreCase(GenreEnum.Value(g), s)
  {
    if cs == [] then None
    else if EqualsIgnoreCase(GenreEnum.Value(cs[0]), s) then Some(cs[0])
    else FindIgnoringCase(cs[1..], s)
  }

  /** `mapGenre`: null for a missing or empty string, otherwise the label
      equal to it ignoring case, or null when there is none. */
  function MapGenre(s: Option<string>): (r: Option<Genre>)
    ensures s.None? || s.value == "" ==> r.None?
    ensures r.Some? ==> EqualsIgnoreCase(GenreEnum.Value(r.value), s.value)
    ensures s.Some? && s.value != "" && r.None? ==>
      forall g :: !EqualsIgnoreCase(GenreEnum.Value(g), s.value)
  {
    if s.None? || s.value == "" then None
    else
      GenreEnum.EveryCaseListed();
      FindIgnoringCase(GenreEnum.Cases, s.value)
  }

  /** Every label is found by `mapGenre`. */
  lemma MapGenreFindsLabel(g: Genre)
    ensures MapGenre(Some(GenreEnum.Value(g))).Some?
  {
    assert GenreEnum.Value(g) != [] by { GenreEnum.CaseOfOwnKey(g); }
    assert EqualsIgnoreCase(GenreEnum.Value(g), GenreEnum.Value(g));
  }

  /** Every label maps back to its own case. */
  lemma MapGenreValue(g: Genre)
    ensures MapGenre(Some(GenreEnum.Value(g))) == Some(g)
  {
    MapGenreFindsLabel(g);
    var r := MapGenre(Some(GenreEnum.Value(g)));
    GenreEnum.ValueInjectiveIgnoringCase(r.value, g);
  }

  /** Strings equal ignoring case map to the same genre. */
  lemma MapGenreIgnoresCase(a: string, b: string)
    requires EqualsIgnoreCase(a, b)
    ensures MapGenre(Some(a)) == MapGenre(Some(b))
  {
    assert |a| == |Lower(a)| == |Lower(b)| == |b|;
    var ra, rb := MapGenre(Some(a)), MapGenre(Some(b));
    if ra.Some? && rb.Some? {
      GenreEnum.ValueInjectiveIgnoringCase(ra.value, rb.value);
    }
  }

  /** Whatever the server's exact lookup accepts, the client's lookup maps to
      the same case. */
  lemma MapGenreExtendsTryFrom(s: string)
    requires GenreEnum.TryFrom(s).Some?
    ensures MapGenre(Some(s)) == GenreEnum.TryFrom(s)
  {
    MapGenreValue(GenreEnum.TryFrom(s).value);
  }

  /** The client accepts a lower-cased label that the server rejects. */
  lemma MapGenreIsCaseInsensitive()
    ensures MapGenre(Some("action")) == Some(GenreEnum.Action)
    ensures GenreEnum.TryFrom("action") == None
  {
    GenreEnum.TryFromIsCaseSensitive();
    MapGenreValue(GenreEnum.Action);
    MapGenreIgnoresCase("action", "Action");
  }

  /** `transformMovie` of the manager: every field copied, the genre mapped. */
  function TransformMovie(raw: RawMovie): (m: Movie)
    ensures m.id == raw.id && m.title == raw.title && m.description == raw.description
    ensures m.duration == raw.duration && m.releaseDate == raw.releaseDate && m.image == raw.image
    ensures m.genre == MapGenre(raw.genre)
  {
    Movie(raw.id, raw.title, raw.description, MapGenre(raw.genre), raw.duration, raw.releaseDate, raw.image)
  }

  /** `data.map(transformMovie)`. */
  function TransformAll(data: seq<RawMovie>): (r: seq<Movie>)
    ensures |r| == |data|
    ensures forall i :: 0 <= i < |data| ==> r[i] == TransformMovie(data[i])
  {
    seq(|data|, i requires 0 <= i < |data| => TransformMovie(data[i]))
  }

  /** `filter((m) => m.id !== id)`: the movies whose id differs, in order. */
  function RemoveById(ms: seq<Movie>, id: Option<int>): (r: seq<Movie>)
    ensures |r| <= |ms|
    ensures forall m :: m in r <==> m in ms && m.id != id
  {
    if ms == [] then []
    else if ms[0].id == id then RemoveById(ms[1..], id)
    else [ms[0]] + RemoveById(ms[1..], id)
  }

  /** Filtering a concatenation filters each part and keeps them in order. */
  lemma {:induction false} RemoveByIdAppend(a: seq<Movie>, b: seq<Movie>, id: Option<int>)
    ensures RemoveById(a + b, id) == RemoveById(a, id) + RemoveById(b, id)
  {
    if a == [] {
      assert a + b == b;
    } else {
      assert (a + b)[1..] == a[1..] + b;
      RemoveByIdAppend(a[1..], b, id);
    }
  }

  /** A list without the id is left as it is. */
  lemma {:induction false} RemoveAbsentId(ms: seq<Movie>, id: Option<int>)
    requires forall m :: m in ms ==> m.id != id
    ensures RemoveById(ms, id) == ms
  {
    if ms != [] {
      assert ms[1..] + [] == ms[1..];
      RemoveAbsentId(ms[1..], id);
    }
  }

  /** Removing twice removes nothing more. */
  lemma RemoveByIdIdempotent(ms: seq<Movie>, id: Option<int>)
    ensures RemoveById(RemoveById(ms, id), id) == RemoveById(ms, id)
  {
    RemoveAbsentId(RemoveById(ms, id), id);
  }

  /** `map((m) => m.id === u.id ? u : m)`: each movie with the updated id is
      replaced, the others stay where they are. */
  function ReplaceById(ms: seq<Movie>, u: Movie): (r: seq<Movie>)
    ensures |r| == |ms|
    ensures forall i :: 0 <= i < |ms| ==> r[i].id == ms[i].id
    ensures forall i :: 0 <= i < |ms| && ms[i].id != u.id ==> r[i] == ms[i]
    ensures forall i :: 0 <= i < |ms| && ms[i].id == u.id ==> r[i] == u
  {
    seq(|ms|, i requires 0 <= i < |ms| => if ms[i].id == u.id then u else ms[i])
  }

  /** Replacing with the same movie twice is replacing once, and a list
      without its id is left alone. */
  lemma ReplaceByIdIdempotent(ms: seq<Movie>, u: Movie)
    ensures ReplaceById(ReplaceById(ms, u), u) == ReplaceById(ms, u)
    ensures (forall m :: m in ms ==> m.id != u.id) ==> ReplaceById(ms, u) == ms
  {
    if forall m :: m in ms ==> m.id != u.id {
      forall i | 0 <= i < |ms| ensures ReplaceById(ms, u)[i] == ms[i] {
        assert ms[i] in ms;
      }
    }
  }

  /** The four values of the action select. */
  datatype Action = List | Create | Update | Delete

  /** How the initial `GET /movies` ends: the list, a non-ok status, or a
      rejected promise with its message. */
  datatype LoadOutcome = Loaded(data: seq<RawMovie>) | LoadNotOk | LoadFailed(message: string)

  /** How a `DELETE` ends. */
  datatype DeleteOutcome = Deleted | DeleteNotOk | DeleteFailed(message: string)

  /** How the `POST /movies` of the create callback ends. */
  datatype CreateOutcome = Created(raw: RawMovie) | CreateNotOk | CreateFailed(message: string)

  const LoadError := "Erreur lors du chargement des films"
  const DeleteError := "Erreur lors de la suppression"
  const CreateFailedMessage := "Erreur création"

  /** The state of the `MovieManager` component. */
  class MovieManager {
    var movies: seq<Movie>
    var loading: bool
    var error: Option<string>
    var selectedAction: Action
    var movieToEdit: Option<Movie>
    var movieToDelete: Option<Movie>
    var showDeleteConfirm: bool

    /** A movie is being edited only in update mode, and the confirmation
        shows exactly when a movie is chosen for deletion. */
    predicate Valid()
      reads this
    {
      && (movieToEdit.Some? ==> selectedAction == Update)
      && (showDeleteConfirm <==> movieToDelete.Some?)
    }

    /** The first render: loading, nothing listed, list mode. */
    constructor ()
      ensures Valid()
      ensures movies == [] && loading && error.None? && selectedAction == List
      ensures movieToEdit.None? && movieToDelete.None? && !showDeleteConfirm
    {
      movies, loading, error, selectedAction := [], true, None, List;
      movieToEdit, movieToDelete, showDeleteConfirm := None, None, false;
    }

    /** The mount effect: the fetched list replaces the empty one, or the
        error is recorded; loading ends either way. */
    method InitialLoad(outcome: LoadOutcome)
      requires Valid() && loading
      modifies this
      ensures Valid() && !loading
      ensures outcome.Loaded? ==> movies == TransformAll(outcome.data) && error == old(error)
      ensures outcome.LoadNotOk? ==> movies == old(movies) && error == Some(LoadError)
      ensures outcome.LoadFailed? ==> movies == old(movies) && error == Some(outcome.message)
      ensures selectedAction == old(selectedAction) && movieToEdit == old(movieToEdit)
      ensures movieToDelete == old(movieToDelete) && showDeleteConfirm == old(showDeleteConfirm)
    {
      match outcome {
        case Loaded(data) =>
          movies := TransformAll(data);
        case LoadNotOk =>
          error := Some(LoadError);
        case LoadFailed(message) =>
          error := Some(message);
      }
      loading := false;
    }

    /** The action select. In update mode, leaving update mode drops the
        movie being edited; in the other modes only the action changes. */
    method SelectAction(action: Action)
      requires Valid()
      modifies this
      ensures Valid() && selectedAction == action
      ensures old(selectedAction) == Update && action != Update ==> movieToEdit.None?
      ensures old(selectedAction) != Update || action == Update ==> movieToEdit == old(movieToEdit)
      ensures movies == old(movies) && loading == old(loading) && error == old(error)
      ensures movieToDelete == old(movieToDelete) && showDeleteConfirm == old(showDeleteConfirm)
    {
      if selectedAction == Update {
        selectedAction := action;
        if action != Update {
          movieToEdit := None;
        }
      } else {
        selectedAction := action;
      }
    }

    /** `onEdit` of the list shown in update mode while no movie is chosen. */
    method ChooseToEdit(m: Movie)
      requires Valid() && selectedAction == Update && movieToEdit.None?
      modifies this
      ensures Valid() && movieToEdit == Some(m)
      ensures movies == old(movies) && selectedAction == old(selectedAction)
      ensures loading == old(loading) && error == old(error)
      ensures movieToDelete == old(movieToDelete) && showDeleteConfirm == old(showDeleteConfirm)
    {
      movieToEdit := Some(m);
    }

    /** `onCancel` of the edit form. */
    method CancelEdit()
      requires Valid() && selectedAction == Update && movieToEdit.Some?
      modifies this
      ensures Valid() && movieToEdit.None?
      ensures movies == old(movies) && selectedAction == old(selectedAction)
      ensures loading == old(loading) && error == old(error)
      ensures movieToDelete == old(movieToDelete) && showDeleteConfirm == old(showDeleteConfirm)
    {
      movieToEdit := None;
    }

    /** `onUpdated` of the edit form: the movie with the updated id is
        replaced in place, and the manager goes back to the list. */
    method OnUpdated(updated: Movie)
      requires Valid() && selectedAction == Update && movieToEdit.Some?
      modifies this
      ensures Valid()
      ensures movies == ReplaceById(old(movies), updated)
      ensures movieToEdit.None? && selectedAction == List
      ensures loading == old(loading) && error == old(error)
      ensures movieToDelete == old(movieToDelete) && showDeleteConfirm == old(showDeleteConfirm)
    {
      movies := ReplaceById(movies, updated);
      movieToEdit := None;
      selectedAction := List;
    }

    /** `onDelete` of the list shown in delete mode: ask for confirmation. */
    method ChooseToDelete(m: Movie)
      requires Valid() && selectedAction == Delete
      modifies this
      ensures Valid() && movieToDelete == Some(m) && showDeleteConfirm
      ensures movies == old(movies) && selectedAction == old(selectedAction)
      ensures loading == old(loading) && error == old(error) && movieToEdit == old(movieToEdit)
    {
      movieToDelete := Some(m);
      showDeleteConfirm := true;
    }

    /** The cancel button of the confirmation. */
    method CancelDelete()
      requires Valid() && selectedAction == Delete && showDeleteConfirm
      modifies this
      ensures Valid() && movieToDelete.None? && !showDeleteConfirm
      ensures movies == old(movies) && selectedAction == old(selectedAction)
      ensures loading == old(loading) && error == old(error) && movieToEdit == old(movieToEdit)
    {
      showDeleteConfirm := false;
      movieToDelete := None;
    }

    /** `confirmDelete`, behind the button of delete mode: without a chosen
        movie nothing happens; a successful
        `DELETE` drops every movie with that id and returns to the list; a
        failure changes nothing and yields the alert text. */
    method ConfirmDelete(outcome: DeleteOutcome) returns (alert: Option<string>)
      requires Valid() && selectedAction == Delete
      modifies this
      ensures Valid()
      ensures old(movieToDelete).None? ==> alert.None? && unchanged(this)
      ensures old(movieToDelete).Some? && outcome.Deleted? ==>
        && alert.None?
        && movies == RemoveById(old(movies), old(movieToDelete).value.id)
        && movieToDelete.None? && !showDeleteConfirm && selectedAction == List
        && loading == old(loading) && error == old(error) && movieToEdit == old(movieToEdit)
      ensures old(movieToDelete).Some? && outcome.DeleteNotOk? ==>
        alert == Some("Erreur : " + DeleteError) && unchanged(this)
      ensures old(movieToDelete).Some? && outcome.DeleteFailed? ==>
        alert == Some("Erreur : " + outcome.message) && unchanged(this)
    {
      if movieToDelete.None? {
        return None;
      }
      match outcome
      case Deleted =>
        movies := RemoveById(movies, movieToDelete.value.id);
        movieToDelete := None;
        showDeleteConfirm := false;
        selectedAction := List;
        alert := None;
      case DeleteNotOk =>
        alert := Some("Erreur : " + DeleteError);
      case DeleteFailed(message) =>
        alert := Some("Erreur : " + message);
    }

    /** `onCreated` of the create form: the created movie is appended and the
        manager returns to the list, unless its id is null; a failure is
        thrown back to the form as its message. */
    method OnCreated(outcome: CreateOutcome) returns (thrown: Option<string>)
      requires Valid() && selectedAction == Create
      modifies this
      ensures Valid()
      ensures outcome.Created? && outcome.raw.id.Some? ==>
        && thrown.None?
        && movies == old(movies) + [TransformMovie(outcome.raw)] && selectedAction == List
        && loading == old(loading) && error == old(error) && movieToEdit == old(movieToEdit)
        && movieToDelete == old(movieToDelete) && showDeleteConfirm == old(showDeleteConfirm)
      ensures outcome.Created? && outcome.raw.id.None? ==> thrown.None? && unchanged(this)
      ensures outcome.CreateNotOk? ==> thrown == Some(CreateFailedMessage) && unchanged(this)
      ensures outcome.CreateFailed? ==> thrown == Some(outcome.message) && unchanged(this)
    {
      match outcome
      case Created(raw) =>
        var created := TransformMovie(raw);
        if created.id.None? {
          return None;
        }
        movies := movies + [created];
        selectedAction := List;
        thrown := None;
      case CreateNotOk =>
        thrown := Some(CreateFailedMessage);
      case CreateFailed(message) =>
        thrown := Some(message);
    }
  }
}
