/** The Movie entity of the server: nullable private fields, getters, and
    setters that overwrite one field and return the entity itself. */
module Entity {
  import opened Wrappers
  import opened GenreEnum

  /** The values of a movie's fields at one moment. The release date is
      kept as the opaque string it was built from. This is also the row the
      store keeps for a persisted movie. */
  datatype MovieData = MovieData(
    id: Option<int>,
    title: Option<string>,
    description: Option<string>,
    genre: Option<Genre>,
    duration: Option<int>,
    releaseDate: Option<string>,
    image: Option<string>)

  /** A movie whose every field is null. */
  const NoFields := MovieData(None, None, None, None, None, None, None)

  class Movie {
    var id: Option<int>
    var title: Option<string>
    var description: Option<string>
    var genre: Option<Genre>
    var duration: Option<int>
    var releaseDate: Option<string>
    var image: Option<string>

    /** All fields of this entity. */
    function Data(): MovieData
      reads this
    {
      MovieData(id, title, description, genre, duration, releaseDate, image)
    }

    /** `new Movie()`: every field, the id included, starts out null. */
    constructor ()
      ensures Data() == NoFields
    {
      id, title, description, genre := None, None, None, None;
      duration, releaseDate, image := None, None, None;
    }

    /** The entity the persistence layer hands out for a stored row: it
        writes the private fields directly. */
    constructor Load(d: MovieData)
      ensures Data() == d
    {
      id, title, description, genre := d.id, d.title, d.description, d.genre;
      duration, releaseDate, image := d.duration, d.releaseDate, d.image;
    }

    /** The getters read one field each. */
    function GetId(): (r: Option<int>)
      reads this
      ensures r == Data().id
    {
      id
    }
    function GetTitle(): (r: Option<string>)
      reads this
      ensures r == Data().title
    {
      title
    }
    function GetDescription(): (r: Option<string>)
      reads this
      ensures r == Data().description
    {
      description
    }
    function GetGenre(): (r: Option<Genre>)
      reads this
      ensures r == Data().genre
    {
      genre
    }
    function GetDuration(): (r: Option<int>)
      reads this
      ensures r == Data().duration
    {
      duration
    }
    function GetReleaseDate(): (r: Option<string>)
      reads this
      ensures r == Data().releaseDate
    {
      releaseDate
    }
    function GetImage(): (r: Option<string>)
      reads this
      ensures r == Data().image
    {
      image
    }

    /** Only the title changes; the entity itself is returned for chaining. */
    method SetTitle(title: string) returns (self: Movie)
      modifies this
      ensures self == this
      ensures GetTitle() == Some(title)
      ensures Data() == old(Data()).(title := Some(title))
    {
      this.title := Some(title);
      self := this;
    }

    /** Only the description changes; null is accepted. */
    method SetDescription(description: Option<string>) returns (self: Movie)
      modifies this
      ensures self == this
      ensures GetDescription() == description
      ensures Data() == old(Data()).(description := description)
    {
      this.description := description;
      self := this;
    }

    /** Only the genre changes; the argument is always a case of the enum. */
    method SetGenre(genre: Genre) returns (self: Movie)
      modifies this
      ensures self == this
      ensures GetGenre() == Some(genre)
      ensures Data() == old(Data()).(genre := Some(genre))
    {
      this.genre := Some(genre);
      self := this;
    }

    /** Only the duration changes. */
    method SetDuration(duration: int) returns (self: Movie)
      modifies this
      ensures self == this
      ensures GetDuration() == Some(duration)
      ensures Data() == old(Data()).(duration := Some(duration))
    {
      this.duration := Some(duration);
      self := this;
    }

    /** Only the release date changes. */
    method SetReleaseDate(releaseDate: string) returns (self: Movie)
      modifies this
      ensures self == this
      ensures GetReleaseDate() == Some(releaseDate)
      ensures Data() == old(Data()).(releaseDate := Some(releaseDate))
    {
      this.releaseDate := Some(releaseDate);
      self := this;
    }

    /** Only the image name changes; null is accepted. */
    method SetImage(image: Option<string>) returns (self: Movie)
      modifies this
      ensures self == this
      ensures GetImage() == image
      ensures Data() == old(Data()).(image := image)
    {
      this.image := image;
      self := this;
    }
  }
}
