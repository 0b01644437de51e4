# Movie catalogue: a verified model

This project models a small movie catalogue in Dafny. The catalogue has two halves.

The server is a Symfony application with three parts:
- a backed enum of eighteen genres;
- a Doctrine entity `Movie` with nullable fields and chaining setters;
- a REST controller that lists, shows, creates, partially updates and deletes movies, and lists the genres.

The client is a React application with four parts:
- a types file holding the genre label constant and the movie and form shapes;
- a `MovieManager` component that caches the list of movies and switches between list, create, update and delete modes;
- a creation form with an ordered validation chain;
- an edit form that sends JSON or multipart depending on whether a file is attached.

How the code is organised:
- Modules follow the source files:
  - `GenreEnum` is `Genre.php`.
  - `Entity` is `Movie.php`.
  - `Controller` is `MovieController.php`.
  - `Types` is `movie.ts`.
  - `Manager`, `CreateForm` and `EditForm` are the three components.
- `Text` holds the string operations the client relies on: `trim`, `toLowerCase` and `slice(0, 10)`.
- `Wrappers` holds `Option` and `Result`.
- `EndToEnd` connects the two halves: the JSON a form writes is read as the request the controller decodes, and the array the controller answers with is read as the client's movie.

How state is modelled:
- The controller is a class over a table (`map<int, MovieData>`) and the next id the database sequence hands out.
- The entity is a class whose setters return `this`.
- Each component is a class whose fields are its React state.
- Each asynchronous handler is one atomic step. How its request ends (success with a body, a non-ok status, a thrown error) is a parameter.

## Model

| member | source | states |
|---|---|---|
| Text.EqualsIgnoreCase | frontend/src/components/MovieManager.tsx:25 | `a.toLowerCase() === b.toLowerCase()`; strings equal ignoring case have the same length |
| Text.Trim | frontend/src/components/MovieCreateForm.tsx:47 | `trim()` is no longer than the string, and neither starts nor ends with white space |
| Text.Lower | frontend/src/components/MovieManager.tsx:25 | `toLowerCase` keeps the length and lower-cases each character |
| Text.TrimEmptyIffBlank | frontend/src/components/MovieCreateForm.tsx:47 | `title.trim()` is empty exactly when the title is made only of white space |
| Text.Prefix | frontend/src/components/MovieEditForm.tsx:20 | `slice(0, n)` is a prefix of at most n characters, the whole string when it is short enough, and exactly n characters otherwise |
| Text.PrefixIdempotent | frontend/src/components/MovieEditForm.tsx:177-185 | a string of at most n characters is its own n-character prefix, so slicing twice is slicing once |
| GenreEnum.Value | backend/skeleton/src/Enum/Genre.php:7-24 | the backing string of each case, never empty |
| GenreEnum.Position | backend/skeleton/src/Enum/Genre.php:7-24 | each case has a declaration position below 18 |
| GenreEnum.Cases | backend/skeleton/src/Enum/Genre.php:7-24 | `Genre::cases()`: the eighteen cases in declaration order; a constant, whose properties `GenreEnum.CasesListEveryCaseOnce` and `GenreEnum.EveryCaseListed` state |
| GenreEnum.CasesListEveryCaseOnce | backend/skeleton/src/Enum/Genre.php:5-24 | `cases()` has exactly 18 entries, lists every case, and lists none twice |
| GenreEnum.EveryCaseListed | backend/skeleton/src/Enum/Genre.php:5-24 | every case is in `cases()` |
| GenreEnum.ValueInjective | backend/skeleton/src/Enum/Genre.php:7-24 | distinct cases have distinct backing strings |
| GenreEnum.CaseOfOwnKey | backend/skeleton/src/Enum/Genre.php:7-24 | every backing string is non-empty, and its length, first letter and last letter (lower-cased) identify its case |
| GenreEnum.ValueInjectiveIgnoringCase | backend/skeleton/src/Enum/Genre.php:7-24 | distinct cases have backing strings that differ even ignoring case |
| GenreEnum.Labels | backend/skeleton/src/Enum/Genre.php:7-24 | the labels are the backing strings of `cases()`, position by position |
| GenreEnum.LabelsDistinct | backend/skeleton/src/Enum/Genre.php:7-24 | there are 18 labels and they are pairwise distinct |
| GenreEnum.FindByValue | backend/skeleton/src/Enum/Genre.php:5 | a search of a list of cases finds a case of the list with exactly that backing string, or reports that none has it |
| GenreEnum.TryFrom | backend/skeleton/src/Enum/Genre.php:5 | `tryFrom` returns a case backed by exactly the string, and null only when no case is |
| GenreEnum.LabelsAreAccepted | backend/skeleton/src/Enum/Genre.php:5-24 | every label is accepted by `tryFrom` |
| GenreEnum.AcceptedAreLabels | backend/skeleton/src/Enum/Genre.php:5-24 | every string `tryFrom` accepts is a label |
| GenreEnum.TryFromAcceptsExactlyLabels | backend/skeleton/src/Enum/Genre.php:5-24 | `tryFrom` accepts a string exactly when it is one of the labels |
| GenreEnum.TryFromValue | backend/skeleton/src/Enum/Genre.php:5-24 | `tryFrom(c->value)` is `c` for every case |
| GenreEnum.TryFromIsCaseSensitive | backend/skeleton/src/Enum/Genre.php:5-7 | "action" is rejected while "Action" is accepted |
| GenreEnum.From | backend/skeleton/src/Enum/Genre.php:5 | `from` succeeds exactly when `tryFrom` does, with a case backed by the string, and otherwise fails with that string |
| GenreEnum.FromValue | backend/skeleton/src/Enum/Genre.php:5-24 | `from(c->value)` is `c`, so its value is `c->value` |
| Entity.Movie.constructor | backend/skeleton/src/Entity/Movie.php:14-32 | a new entity has the id and every other field null |
| Entity.Movie.GetId | backend/skeleton/src/Entity/Movie.php:34-37 | reads the id field |
| Entity.Movie.GetTitle | backend/skeleton/src/Entity/Movie.php:39-42 | reads the title field |
| Entity.Movie.GetDescription | backend/skeleton/src/Entity/Movie.php:44-47 | reads the description field |
| Entity.Movie.GetGenre | backend/skeleton/src/Entity/Movie.php:49-52 | reads the genre field |
| Entity.Movie.GetDuration | backend/skeleton/src/Entity/Movie.php:54-57 | reads the duration field |
| Entity.Movie.GetReleaseDate | backend/skeleton/src/Entity/Movie.php:59-62 | reads the release-date field |
| Entity.Movie.GetImage | backend/skeleton/src/Entity/Movie.php:94-97 | reads the image field |
| Entity.Movie.SetTitle | backend/skeleton/src/Entity/Movie.php:64-68 | returns the entity itself, the getter reads the new title back, and no other field changes |
| Entity.Movie.SetDescription | backend/skeleton/src/Entity/Movie.php:70-74 | returns the entity itself, the getter reads the new description back, and no other field changes |
| Entity.Movie.SetGenre | backend/skeleton/src/Entity/Movie.php:76-80 | returns the entity itself, the getter reads the case back, and no other field changes |
| Entity.Movie.SetDuration | backend/skeleton/src/Entity/Movie.php:82-86 | returns the entity itself, the getter reads the new duration back, and no other field changes |
| Entity.Movie.SetReleaseDate | backend/skeleton/src/Entity/Movie.php:88-92 | returns the entity itself, the getter reads the new date back, and no other field changes |
| Entity.Movie.SetImage | backend/skeleton/src/Entity/Movie.php:99-103 | returns the entity itself, the getter reads the new image back, and no other field changes |
| Entity.Movie.Load | backend/skeleton/src/Controller/MovieController.php:92 | the entity `find` returns holds the stored row's fields |
| Controller.IntCast | backend/skeleton/src/Controller/MovieController.php:80 | `(int)` truncates toward zero: the result is within one of the number, on the side of zero |
| Controller.MovieToArray | backend/skeleton/src/Controller/MovieController.php:16-26 | the array carries the id, title, description, duration and date of the row, and the genre as its backing string (null when the genre is null), and never the image |
| Controller.MovieToArrayGenreReadsBack | backend/skeleton/src/Controller/MovieController.php:22 | the genre string of an array reads back through `tryFrom` as the row's genre |
| Controller.CreateError | backend/skeleton/src/Controller/MovieController.php:68-74 | "Missing required fields" exactly when title, genre, release date or duration is absent or null; otherwise "Invalid genre value" exactly when the genre is not a label; no error otherwise |
| Controller.NewRecord | backend/skeleton/src/Controller/MovieController.php:76-81 | an accepted request becomes a complete row with the new id and the request's fields, with a null description when absent, the case its label names, the duration cast to int, and no image |
| Controller.NewRecordFields | backend/skeleton/src/Controller/MovieController.php:76-81 | the new row is exactly the request's fields, given the case the genre label names |
| Controller.Override | backend/skeleton/src/Controller/MovieController.php:99-121 | a field of a partial update takes the request's value when present, and keeps the old one otherwise |
| Controller.Overwrite | backend/skeleton/src/Controller/MovieController.php:99-121 | the assignments with the genre already looked up: each field overridden by the request's, the duration cast to int, the id and the image kept |
| Controller.UpdateResult | backend/skeleton/src/Controller/MovieController.php:99-121 | the update fails with "Invalid genre value" exactly when a genre that is not a label is given; otherwise each field present in the request replaces the stored one, the others, the id and the image stay, and a duration is cast to int |
| Controller.UpdateKeepsRowComplete | backend/skeleton/src/Controller/MovieController.php:99-121 | an update keeps a complete row complete and never clears a description |
| Controller.UpdateIdempotent | backend/skeleton/src/Controller/MovieController.php:99-125 | sending the same update twice has the effect of sending it once |
| Controller.GenresResponse | backend/skeleton/src/Controller/MovieController.php:143-147 | the genres endpoint answers 200 with 18 labels, each case's label at its declaration position |
| Controller.Pick | backend/skeleton/src/Controller/MovieController.php:30 | the storage returns some stored key, left unspecified |
| Controller.ListRows | backend/skeleton/src/Controller/MovieController.php:30-39 | the listing has one array per stored row, every entry is the array of a stored row, and every row's array is in it |
| Controller.InsertKeepsStored | backend/skeleton/src/Controller/MovieController.php:83-84 | the next id is unused, and filing a complete row under it and advancing the sequence keeps the table well formed |
| Controller.ReplaceKeepsStored | backend/skeleton/src/Controller/MovieController.php:123 | refiling a complete row under its own id keeps the table well formed |
| Controller.MovieController.constructor | backend/skeleton/src/Controller/MovieController.php:14-15 | the table starts empty, with the sequence at 1 |
| Controller.MovieController.GetMovies | backend/skeleton/src/Controller/MovieController.php:28-42 | answers 200 with the array of every stored row, each row once |
| Controller.MovieController.GetMovie | backend/skeleton/src/Controller/MovieController.php:45-61 | answers 404 "Movie not found" for an unknown id, and otherwise 200 with the row's fields without the image |
| Controller.MovieController.CreateMovie | backend/skeleton/src/Controller/MovieController.php:64-87 | a rejected request answers 400 with its error and stores nothing; an accepted one adds exactly one row under a fresh id, changes no other row, and answers 201 with the new row |
| Controller.MovieController.BuildMovie | backend/skeleton/src/Controller/MovieController.php:76-81 | the setter chain yields a new entity holding the request's fields and no id |
| Controller.MovieController.Persist | backend/skeleton/src/Controller/MovieController.php:83-84 | the new row gets the next id, is stored under it, the sequence advances, and no other row changes |
| Controller.MovieController.UpdateMovie | backend/skeleton/src/Controller/MovieController.php:90-126 | 404 and nothing changes for an unknown id; 400 and nothing changes for an invalid genre; otherwise only that row is replaced by the update result, and the answer is 201 with it |
| Controller.MovieController.AssignFields | backend/skeleton/src/Controller/MovieController.php:99-121 | the assignments succeed exactly when the update does, and then give the update result; an invalid genre stops them with the title and description already written into the entity |
| Controller.MovieController.DeleteMovie | backend/skeleton/src/Controller/MovieController.php:129-140 | 404 and nothing changes for an unknown id; otherwise that row alone is removed and the answer is "Movie deleted" |
| Controller.MovieController.GetMovieGenres | backend/skeleton/src/Controller/MovieController.php:143-147 | answers with the labels of `cases()` in declaration order |
| Types.GenreConstant | frontend/src/types/movie.ts:1-20 | `Object.values(Genre)`: eighteen labels as declared |
| Types.GenreConstantIsLabels | frontend/src/types/movie.ts:1-20 | the client's label constant holds the server's labels, in the same order |
| Types.GenreConstantDistinct | frontend/src/types/movie.ts:1-20 | the constant has 18 pairwise distinct labels |
| Types.GenreTypeIsConstantValues | frontend/src/types/movie.ts:22 | a string is a value of the constant exactly when it names a genre, and every genre's label is one |
| Types.CreateDtoOf | frontend/src/types/movie.ts:34 | the creation shape carries every field of a movie but the id |
| Types.WithId | frontend/src/types/movie.ts:34 | completing a creation shape with an id and dropping it again gives the same shape |
| Types.CreateDtoRoundTrip | frontend/src/types/movie.ts:34 | dropping the id and putting it back loses only the image |
| Types.FullUpdateDto | frontend/src/types/movie.ts:36-38 | the update shape can carry every field of a movie, each present; `EndToEnd.FullUpdateSetsEveryField` ties it to the controller's update |
| Types.EmptyUpdateDto | frontend/src/types/movie.ts:36-38 | the update shape needs only the id; every other field may be absent; `EndToEnd.EmptyUpdateKeepsRow` ties it to the controller's update |
| Types.WithChange | frontend/src/components/MovieCreateForm.tsx:26-41 | a change event sets the field it names to the event's value and leaves every other field as it was |
| Types.ChangesCommute | frontend/src/components/MovieCreateForm.tsx:26-41 | changes to different inputs commute, and a second change to the same input overrides the first |
| Types.BodyOf | frontend/src/components/MovieCreateForm.tsx:56-62 | the JSON body holds the form's title, description, duration and date, and a genre label that `tryFrom` reads back as the form's genre |
| Manager.FindIgnoringCase | frontend/src/components/MovieManager.tsx:25 | `find` returns a label of the list equal to the string ignoring case, or none when no label is |
| Manager.MapGenre | frontend/src/components/MovieManager.tsx:22-27 | null for a null or empty string; otherwise a genre whose label equals the string ignoring case, and null only when no label does |
| Manager.MapGenreFindsLabel | frontend/src/components/MovieManager.tsx:22-27 | every label is found |
| Manager.MapGenreValue | frontend/src/components/MovieManager.tsx:22-27 | every label maps back to its own genre |
| Manager.MapGenreIgnoresCase | frontend/src/components/MovieManager.tsx:25 | strings equal ignoring case map to the same genre |
| Manager.MapGenreExtendsTryFrom | frontend/src/components/MovieManager.tsx:22-27 | whatever the server's exact lookup accepts, the client maps to the same genre |
| Manager.MapGenreIsCaseInsensitive | frontend/src/components/MovieManager.tsx:25 | the client maps "action" to Action where the server's `tryFrom` rejects it |
| Manager.TransformMovie | frontend/src/components/MovieManager.tsx:29-39 | every field is copied, the genre is mapped by `mapGenre` |
| Manager.TransformAll | frontend/src/components/MovieManager.tsx:57 | the list is transformed movie by movie, keeping its length and order |
| Manager.RemoveById | frontend/src/components/MovieManager.tsx:74 | the filtered list holds exactly the movies whose id differs |
| Manager.RemoveByIdAppend | frontend/src/components/MovieManager.tsx:74 | filtering keeps the order of the rest: it distributes over concatenation |
| Manager.RemoveAbsentId | frontend/src/components/MovieManager.tsx:74 | a list without the id is left as it is |
| Manager.RemoveByIdIdempotent | frontend/src/components/MovieManager.tsx:74 | filtering twice is filtering once |
| Manager.ReplaceById | frontend/src/components/MovieManager.tsx:148-150 | length, order and ids are kept; each movie with the updated id becomes the updated movie, and the others stay |
| Manager.ReplaceByIdIdempotent | frontend/src/components/MovieManager.tsx:148-150 | replacing twice is replacing once, and a list without the id is left alone |
| Manager.MovieManager.constructor | frontend/src/components/MovieManager.tsx:42-48 | the first state: loading, nothing listed, no error, list mode, nothing chosen |
| Manager.MovieManager.InitialLoad | frontend/src/components/MovieManager.tsx:50-65 | success lists the transformed movies; a non-ok status or a rejection records its message; loading ends either way, and nothing else changes |
| Manager.MovieManager.SelectAction | frontend/src/components/MovieManager.tsx:127-130 | the action changes; leaving update mode drops the movie being edited, and nothing else changes |
| Manager.MovieManager.ChooseToEdit | frontend/src/components/MovieManager.tsx:138 | the chosen movie becomes the movie being edited, and nothing else changes |
| Manager.MovieManager.CancelEdit | frontend/src/components/MovieManager.tsx:154 | the movie being edited is dropped, and nothing else changes |
| Manager.MovieManager.OnUpdated | frontend/src/components/MovieManager.tsx:147-153 | the movie with the updated id is replaced in place, the movie being edited is dropped, and the mode returns to the list |
| Manager.MovieManager.ChooseToDelete | frontend/src/components/MovieManager.tsx:171-174 | the chosen movie is kept for deletion and the confirmation shows |
| Manager.MovieManager.CancelDelete | frontend/src/components/MovieManager.tsx:184-187 | the confirmation hides and the movie kept for deletion is dropped |
| Manager.MovieManager.ConfirmDelete | frontend/src/components/MovieManager.tsx:67-81 | without a chosen movie nothing happens; a successful delete removes every movie with that id, keeps the order of the rest, hides the confirmation and returns to the list; a failure changes nothing and alerts its message |
| Manager.MovieManager.OnCreated | frontend/src/components/MovieManager.tsx:104-115 | a created movie with an id is appended at the end and the mode returns to the list; one with a null id changes nothing; a failure changes nothing and throws its message |
| CreateForm.GenreOptions | frontend/src/components/MovieCreateForm.tsx:5-9 | the eighteen hard-coded options |
| CreateForm.GenreOptionsAreLabels | frontend/src/components/MovieCreateForm.tsx:5-9 | the hard-coded options are the 18 labels in declaration order |
| CreateForm.DefaultForm | frontend/src/components/MovieCreateForm.tsx:16-22 | the empty form: empty texts, Action, 90, empty date, no file |
| CreateForm.DurationPositive | frontend/src/components/MovieCreateForm.tsx:49 | the duration check fails for NaN, zero, negative numbers and negative infinity |
| CreateForm.Validate | frontend/src/components/MovieCreateForm.tsx:47-50 | the four checks in order: each message appears exactly when its check is the first to fail, and none when all pass |
| CreateForm.TitleCheckIsBlank | frontend/src/components/MovieCreateForm.tsx:47 | the title check fails exactly for a blank title |
| CreateForm.GenreCheckNeverFires | frontend/src/components/MovieCreateForm.tsx:48 | the genre check never fires, since the select always holds a label |
| CreateForm.DefaultsNeedTitleAndDate | frontend/src/components/MovieCreateForm.tsx:16-22 | the empty form fails on its title; with a title that is not blank and a date it passes |
| CreateForm.Payload | frontend/src/components/MovieCreateForm.tsx:55-66 | the `data` part is the JSON of exactly the five fields, and the `image` part is there exactly when a file was chosen |
| CreateForm.ThrownMessage | frontend/src/components/MovieCreateForm.tsx:77 | the thrown message, or "Erreur inconnue" when it is empty |
| CreateForm.CreateFormState.constructor | frontend/src/components/MovieCreateForm.tsx:16-24 | the form starts empty, with no error and not loading |
| CreateForm.CreateFormState.HandleChange | frontend/src/components/MovieCreateForm.tsx:26-41 | only the named field changes |
| CreateForm.CreateFormState.HandleSubmit | frontend/src/components/MovieCreateForm.tsx:43-81 | a failing check shows its message and sends nothing; a passing form sends its payload and is reset if the callback succeeds, or keeps its fields and shows the thrown message; loading is off at the end |
| EditForm.InitialForm | frontend/src/components/MovieEditForm.tsx:15-21 | null title and description become empty, a null genre Action, a null duration 90, and the date its first 10 characters or empty; no file |
| EditForm.TransformMovie | frontend/src/components/MovieEditForm.tsx:177-185 | every field is kept but the date, which becomes its first 10 characters, or empty when null or empty |
| EditForm.TransformMovieIdempotent | frontend/src/components/MovieEditForm.tsx:177-185 | transforming twice is transforming once |
| EditForm.InitialFormAfterTransform | frontend/src/components/MovieEditForm.tsx:15-21 | the form opened on a transformed movie is the form opened on the original |
| EditForm.RequestOf | frontend/src/components/MovieEditForm.tsx:52-82 | with a file, a multipart POST whose `data` part is the five fields and whose `image` part is the file; without one, a JSON PUT of the same five fields |
| EditForm.FailureMessage | frontend/src/components/MovieEditForm.tsx:84-92 | the server's `error`, or "Erreur lors de la modification" when it is missing or empty; a thrown message, or "Erreur inconnue" when it is empty |
| EditForm.EditFormState.constructor | frontend/src/components/MovieEditForm.tsx:15-24 | the form opens on the movie's fields, with no error and not loading |
| EditForm.EditFormState.HandleChange | frontend/src/components/MovieEditForm.tsx:27-42 | only the named field changes |
| EditForm.EditFormState.HandleSubmit | frontend/src/components/MovieEditForm.tsx:44-96 | the request is chosen by whether a file is attached; success hands the transformed movie to `onUpdated` with no error; a failure shows its message and hands nothing on; the form is kept and loading is off at the end |
| EndToEnd.WireNumber | frontend/src/components/MovieEditForm.tsx:73-79 | `JSON.stringify` writes a finite number as itself and NaN or an infinity as null |
| EndToEnd.Wire | backend/skeleton/src/Controller/MovieController.php:97 | the decoded request has every string field of the form's body, and the duration only when it is finite |
| EndToEnd.CreateChecksAgree | backend/skeleton/src/Controller/MovieController.php:68-81 | a form the client accepts passes the server's checks exactly when its duration is finite; an infinite duration gets "Missing required fields"; an accepted form becomes a row with exactly its fields |
| EndToEnd.EditPutApplies | backend/skeleton/src/Controller/MovieController.php:99-121 | the edit form's PUT is always accepted and sets every field of the form, keeping the stored duration when the form's is not finite |
| EndToEnd.Given | frontend/src/types/movie.ts:36-38 | an optional field of the update shape counts as given exactly when it is present and not null |
| EndToEnd.DtoRequest | backend/skeleton/src/Controller/MovieController.php:97-121 | the request the controller decodes from an update shape: each given field, the genre as its label, the duration as a number |
| EndToEnd.DtoUpdateApplies | backend/skeleton/src/Controller/MovieController.php:99-121 | an update shape is always accepted, and changes exactly its given fields, keeping every other field, the id and the image |
| EndToEnd.EmptyUpdateKeepsRow | frontend/src/types/movie.ts:36-38 | the update shape with only the id leaves the row as it was |
| EndToEnd.FullUpdateSetsEveryField | frontend/src/types/movie.ts:36-38 | the update shape of a movie whose fields are all set gives the row exactly those fields, keeping its id and image |
| EndToEnd.ReadRaw | frontend/src/components/MovieManager.tsx:12-20 | the client's raw movie for a server array has its fields under the same keys, and no image |
| EndToEnd.ClientMovie | frontend/src/types/movie.ts:24-31 | the client's movie for a stored row: its fields, and no image |
| EndToEnd.ManagerReadsRow | frontend/src/components/MovieManager.tsx:29-39 | the manager reads a stored row back exactly, genre included |
| EndToEnd.UnchangedEditKeepsRow | frontend/src/components/MovieEditForm.tsx:15-21 | for a complete row whose description is set and whose date has at most 10 characters (both assumed), opening the edit form on it and submitting it unchanged sends a JSON PUT, and that PUT leaves the row exactly as it was |
| EndToEnd.EditHandsBackForm | frontend/src/components/MovieEditForm.tsx:89-90 | after an accepted edit, `onUpdated` receives the row's id and exactly the form's fields, the date cut to 10 characters |
| EndToEnd.ReadMovie | frontend/src/components/MovieEditForm.tsx:89 | the edit form's movie for a server array, with the genre label read through `tryFrom` |

## Left out

- The creation request: the creation form hands `onCreated` a multipart body (frontend/src/components/MovieManager.tsx:105-108), but `createMovie` decodes the raw body as JSON (backend/skeleton/src/Controller/MovieController.php:66). As written, `json_decode` of a multipart body gives null, so every creation from the client is answered 400 "Missing required fields", `onCreated` throws "Erreur création" and the form shows it. Only the JSON path is modelled. `EndToEnd.CreateChecksAgree` holds only for the modelled reading, in which the `data` part is the JSON body.
- The multipart edit: the `POST` of the edit form with a file has no route on the server, which routes only `PUT` for `/movies/{id}`. Its server side is not modelled, and image storage is not modelled at all.
- The two base URLs: the manager talks to port 8002 and the edit form to port 8001. Only the paths are modelled.
- Status codes: a successful update answers 201, as the code does.
- Routing, the Symfony response building, `json_decode`, the Doctrine entity manager and `fetch` are replaced by the table and by outcome parameters. A JSON body is decoded into one optional field per key the controller reads. A key absent from the body and a key holding null are the same `None`, exactly as `isset` and `??` treat them. JSON values of the wrong type (a number where a string is expected, say) are not modelled.
- Dates are opaque strings. `new \DateTime`, `format('c')` and date validation are not modelled: the stored date string is the one sent, and its formatted form is itself.
- Controller.IntCast: PHP integer width and overflow are not modelled, and neither are the column lengths of title and image.
- `Number(value)` of the duration input is not modelled: a change event carries the resulting number directly.
- Text.Lower: lower-cases ASCII letters only. JavaScript's full Unicode `toLowerCase` is not modelled. The genre labels are ASCII.
- Controller.ListRows: the order of `findAll` is left to the storage. The listing is a permutation of the stored rows with no order promised.
- Manager.MovieManager.InitialLoad: the model covers only the fetch that ends the loading state. Rendering while loading, or after an error, is not modelled.
- CreateForm.CreateFormState.HandleSubmit: `loading` is true only between the checks and the end of the handler. The model runs the handler as one step, so that intermediate state is not observable.
- EditForm.EditFormState.HandleSubmit: as above, the intermediate `loading` state is not observable. The `required` attributes of the inputs, which the browser checks before submitting, are not modelled.
- Rendering, the hooks (`useState`, `useEffect`) and the `key` and `console.log` of the list view are not modelled.
- The image field: the client's `Movie` type does not declare it, but the manager's `transformMovie` copies it. It is part of the client's movie here. The server never sends it, so the client reads it as undefined, which the model writes as `None`.
- Manager.MovieManager.OnCreated: `None` stands for both null and undefined. The source checks `createdMovie.id === null` (frontend/src/components/MovieManager.tsx:112), so a response with no `id` key at all would be appended, where the model leaves the list unchanged. The server always writes the `id` key, so this case does not arise with it.
- CreateForm.CreateFormState.HandleSubmit: the inputs carry `required` and the duration `min={1}` (frontend/src/components/MovieCreateForm.tsx:105, 123, 137-138, 149). The browser blocks an empty title, an empty date or a duration below 1 before `handleSubmit` runs. The model does not include this browser check, so it lets every form reach the handler's own checks.
