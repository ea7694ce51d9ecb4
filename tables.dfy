/** The three input tables of the genre analysis, as read by `pd.read_csv`
    with the column names it is given, and the 19 genre columns of the
    movies table in their declared order. */
module Tables {

  /** A value that may be absent (a NaN in the frame). */
  datatype Option<T> = None | Some(value: T)

  /** A field of a genre column as it arrives from the file: a number, an
      empty field, or text that may or may not spell a number. */
  datatype Cell = Num(n: int) | Missing | Text(s: string)

  /** The genre columns of the movies table, in declared order; the position
      of a genre here is its column index. */
  const GenreColumns: seq<string> := [
    "unknown", "Action", "Adventure", "Animation", "Children's", "Comedy",
    "Crime", "Documentary", "Drama", "Fantasy", "Film-Noir", "Horror",
    "Musical", "Mystery", "Romance", "Sci-Fi", "Thriller", "War", "Western"
  ]

  /** The number of genre columns. */
  const GenreCount: nat := 19

  /** The genre fields of one movie, one per genre column. */
  type GenreFlags = f: seq<Cell> | |f| == GenreCount witness seq(GenreCount, _ => Missing)

  /** A row of the ratings file: `user_id, item_id, rating, timestamp`. */
  datatype Rating = Rating(userId: int, itemId: int, rating: int, timestamp: int)

  /** A row of the movies file: `movie_id, movie_title, release_date,
      video_release_date, IMDb_URL` and the genre columns. */
  datatype Movie = Movie(
    movieId: int, movieTitle: string, releaseDate: string,
    videoReleaseDate: string, imdbUrl: string, genres: GenreFlags)

  /** A row of the users file: `user_id, age, gender, occupation, zip_code`. */
  datatype User = User(userId: int, age: int, gender: string, occupation: string, zipCode: string)
}
