/** The values the query layer reads from storage and returns, and the
    storage itself as an oracle. */
module Movies {
  import opened Wrappers

  /** A row of the `movies` table joined with its rating; the rating columns
      are empty when the movie has no rating (the join is a left join). */
  datatype MovieRow = MovieRow(
    tconst: string,
    primaryTitle: string,
    startYear: Option<int>,
    runtimeMinutes: Option<int>,
    genres: Option<string>,
    averageRating: Option<real>,
    numVotes: Option<int>)

  /** A billed actor as read from storage: name and character list. */
  datatype ActorRow = ActorRow(primaryName: string, characters: Option<string>)

  datatype Actor = Actor(name: string, character: Option<string>)

  /** The detail record `get_movie_details` builds. */
  datatype MovieDetails = MovieDetails(
    tconst: string,
    title: string,
    year: Option<int>,
    runtime: Option<int>,
    genres: Option<string>,
    rating: Option<real>,
    votes: Option<int>,
    directors: seq<string>,
    actors: seq<Actor>)

  /** A failing read against storage. */
  datatype DbError = DbError(message: string)

  /** The storage engine's answers to the four read queries, each of which
      may fail: the title search for a query text and a row limit, the movie
      row for an id, the director names for an id, and the first billed
      actors for an id in billing order. */
  datatype Store = Store(
    search: (string, int) -> Result<seq<MovieRow>, DbError>,
    movie: string -> Result<Option<MovieRow>, DbError>,
    directors: string -> Result<seq<string>, DbError>,
    actors: string -> Result<seq<ActorRow>, DbError>)

  /** What the cache holds: the rows of a search or the record of a movie. */
  datatype CachedValue = SearchRows(rows: seq<MovieRow>) | Record(details: MovieDetails)

  /** Python truthiness of a cached value: a list is true when it is not
      empty, and a detail dictionary always has its nine keys. */
  predicate Truthy(v: CachedValue)
  {
    match v
    case SearchRows(rows) => |rows| > 0
    case Record(_) => true
  }

  /** The detail record from the movie row, the director names and the actor
      rows: every director, and every actor in the given order with the
      character list attached. */
  function Assemble(movie: MovieRow, directors: seq<string>, actors: seq<ActorRow>): MovieDetails
  {
    MovieDetails(
      movie.tconst, movie.primaryTitle, movie.startYear, movie.runtimeMinutes, movie.genres,
      movie.averageRating, movie.numVotes, directors,
      seq(|actors|, i requires 0 <= i < |actors| => Actor(actors[i].primaryName, actors[i].characters)))
  }
}
