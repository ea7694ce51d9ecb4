/** The two inner merges of the analysis: ratings with the genre columns of
    movies on `item_id = movie_id`, then the result with `age` and
    `occupation` of users on `user_id`. Each left row yields one row per
    matching right row, in the order of the right table; a left row without
    a match yields nothing. */
module Join {
  import opened Seqs
  import opened Tables

  /** A row of `ratings` merged with `movie_id` and the genre columns. */
  datatype RatedMovie = RatedMovie(
    userId: int, itemId: int, rating: int, timestamp: int,
    movieId: int, genres: GenreFlags)

  /** A row of the merged frame: a rating, its movie's genre columns and its
      user's age and occupation. */
  datatype MergedRow = MergedRow(
    userId: int, itemId: int, rating: int, timestamp: int,
    movieId: int, genres: GenreFlags, age: int, occupation: string)

  /** The row the merge makes of a rating, a movie and a user. */
  function Combine(r: Rating, m: Movie, u: User): MergedRow {
    MergedRow(r.userId, r.itemId, r.rating, r.timestamp, m.movieId, m.genres, u.age, u.occupation)
  }

  /** The row the merge with movies makes of `r` and its movie `m`. */
  function MovieRow(r: Rating, m: Movie): RatedMovie {
    RatedMovie(r.userId, r.itemId, r.rating, r.timestamp, m.movieId, m.genres)
  }

  /** The row the merge with users makes of `x` and its user `u`. */
  function UserRow(x: RatedMovie, u: User): MergedRow {
    MergedRow(x.userId, x.itemId, x.rating, x.timestamp, x.movieId, x.genres, u.age, u.occupation)
  }

  /** The row `r` and `m` make when `m` is the movie `r` rates. */
  function MoviePair(r: Rating, m: Movie): seq<RatedMovie> {
    if m.movieId == r.itemId then [MovieRow(r, m)] else []
  }

  /** The rows `r` contributes to the merge with movies. */
  function MovieMatches(r: Rating, movies: seq<Movie>): seq<RatedMovie> {
    FlatMap(movies, (m: Movie) => MoviePair(r, m))
  }

  /** The rows of one rating in the merge with movies are its pairings with
      the movies whose `movie_id` is its `item_id`. */
  lemma MovieMatchesMember(r: Rating, movies: seq<Movie>, x: RatedMovie)
    ensures x in MovieMatches(r, movies) <==> exists m :: m in movies && m.movieId == r.itemId && x == MovieRow(r, m)
  {
    FlatMapMember(movies, (m: Movie) => MoviePair(r, m), x);
  }

  /** `ratings.merge(movies[...], left_on='item_id', right_on='movie_id')`:
      the rows are exactly the pairings of a rating with a movie whose
      `movie_id` is the rating's `item_id`. */
  function MergeMovies(ratings: seq<Rating>, movies: seq<Movie>): (rated: seq<RatedMovie>)
    ensures forall x :: x in rated ==>
      exists r, m :: r in ratings && m in movies && m.movieId == r.itemId && x == MovieRow(r, m)
    ensures forall r, m :: r in ratings && m in movies && m.movieId == r.itemId ==> MovieRow(r, m) in rated
  {
    var rated := FlatMap(ratings, (r: Rating) => MovieMatches(r, movies));
    assert forall x :: x in rated ==>
      exists r, m :: r in ratings && m in movies && m.movieId == r.itemId && x == MovieRow(r, m)
    by {
      forall x | x in rated
        ensures exists r, m :: r in ratings && m in movies && m.movieId == r.itemId && x == MovieRow(r, m)
      {
        FlatMapMember(ratings, (r: Rating) => MovieMatches(r, movies), x);
        var r :| r in ratings && x in MovieMatches(r, movies);
        MovieMatchesMember(r, movies, x);
      }
    }
    assert forall r, m :: r in ratings && m in movies && m.movieId == r.itemId ==> MovieRow(r, m) in rated by {
      forall r, m | r in ratings && m in movies && m.movieId == r.itemId ensures MovieRow(r, m) in rated {
        MovieMatchesMember(r, movies, MovieRow(r, m));
        FlatMapMember(ratings, (r: Rating) => MovieMatches(r, movies), MovieRow(r, m));
      }
    }
    rated
  }

  /** The row `x` and `u` make when `u` is the user of `x`. */
  function UserPair(x: RatedMovie, u: User): seq<MergedRow> {
    if u.userId == x.userId then [UserRow(x, u)] else []
  }

  /** The rows `x` contributes to the merge with users. */
  function UserMatches(x: RatedMovie, users: seq<User>): seq<MergedRow> {
    FlatMap(users, (u: User) => UserPair(x, u))
  }

  /** The rows of one row in the merge with users are its pairings with the
      users whose `user_id` is its own. */
  lemma UserMatchesMember(x: RatedMovie, users: seq<User>, w: MergedRow)
    ensures w in UserMatches(x, users) <==> exists u :: u in users && u.userId == x.userId && w == UserRow(x, u)
  {
    FlatMapMember(users, (u: User) => UserPair(x, u), w);
  }

  /** `.merge(users[['user_id', 'age', 'occupation']], on='user_id')`: the
      rows are exactly the pairings of a row with a user having its
      `user_id`. */
  function MergeUsers(rated: seq<RatedMovie>, users: seq<User>): (merged: seq<MergedRow>)
    ensures forall w :: w in merged ==>
      exists x, u :: x in rated && u in users && u.userId == x.userId && w == UserRow(x, u)
    ensures forall x, u :: x in rated && u in users && u.userId == x.userId ==> UserRow(x, u) in merged
  {
    var merged := FlatMap(rated, (x: RatedMovie) => UserMatches(x, users));
    assert forall w :: w in merged ==>
      exists x, u :: x in rated && u in users && u.userId == x.userId && w == UserRow(x, u)
    by {
      forall w | w in merged
        ensures exists x, u :: x in rated && u in users && u.userId == x.userId && w == UserRow(x, u)
      {
        FlatMapMember(rated, (x: RatedMovie) => UserMatches(x, users), w);
        var x :| x in rated && w in UserMatches(x, users);
        UserMatchesMember(x, users, w);
      }
    }
    assert forall x, u :: x in rated && u in users && u.userId == x.userId ==> UserRow(x, u) in merged by {
      forall x, u | x in rated && u in users && u.userId == x.userId ensures UserRow(x, u) in merged {
        UserMatchesMember(x, users, UserRow(x, u));
        FlatMapMember(rated, (x: RatedMovie) => UserMatches(x, users), UserRow(x, u));
      }
    }
    merged
  }

  /** The merged frame of the analysis: its rows are exactly the
      combinations of a rating, a movie whose `movie_id` is the rating's
      `item_id`, and a user whose `user_id` is the rating's. */
  function Merge(ratings: seq<Rating>, movies: seq<Movie>, users: seq<User>): (merged: seq<MergedRow>)
    ensures forall w :: w in merged ==>
      exists r, m, u ::
        && r in ratings && m in movies && u in users
        && m.movieId == r.itemId && u.userId == r.userId && w == Combine(r, m, u)
    ensures forall r, m, u ::
      r in ratings && m in movies && u in users && m.movieId == r.itemId && u.userId == r.userId
      ==> Combine(r, m, u) in merged
  {
    var rated := MergeMovies(ratings, movies);
    var merged := MergeUsers(rated, users);
    assert forall w :: w in merged ==>
      exists r, m, u ::
        && r in ratings && m in movies && u in users
        && m.movieId == r.itemId && u.userId == r.userId && w == Combine(r, m, u)
    by {
      forall w | w in merged
        ensures exists r, m, u ::
          && r in ratings && m in movies && u in users
          && m.movieId == r.itemId && u.userId == r.userId && w == Combine(r, m, u)
      {
        var x, u :| x in rated && u in users && u.userId == x.userId && w == UserRow(x, u);
        var r, m :| r in ratings && m in movies && m.movieId == r.itemId && x == MovieRow(r, m);
        assert w == Combine(r, m, u);
      }
    }
    assert forall r, m, u ::
      r in ratings && m in movies && u in users && m.movieId == r.itemId && u.userId == r.userId
      ==> Combine(r, m, u) in merged
    by {
      forall r, m, u | r in ratings && m in movies && u in users && m.movieId == r.itemId && u.userId == r.userId
        ensures Combine(r, m, u) in merged
      {
        assert MovieRow(r, m) in rated;
        assert Combine(r, m, u) == UserRow(MovieRow(r, m), u);
      }
    }
    merged
  }

  /** The rows one rating contributes to the merged frame. */
  function RatingRows(r: Rating, movies: seq<Movie>, users: seq<User>): seq<MergedRow> {
    FlatMap(MovieMatches(r, movies), (x: RatedMovie) => UserMatches(x, users))
  }

  predicate HasMovie(id: int, movies: seq<Movie>) {
    exists m :: m in movies && m.movieId == id
  }

  predicate HasUser(id: int, users: seq<User>) {
    exists u :: u in users && u.userId == id
  }

  /** Both keys of `r` find a partner. */
  predicate Matched(r: Rating, movies: seq<Movie>, users: seq<User>) {
    HasMovie(r.itemId, movies) && HasUser(r.userId, users)
  }

  ghost predicate UniqueMovieIds(movies: seq<Movie>) {
    forall i, j :: 0 <= i < j < |movies| ==> movies[i].movieId != movies[j].movieId
  }

  ghost predicate UniqueUserIds(users: seq<User>) {
    forall i, j :: 0 <= i < j < |users| ==> users[i].userId != users[j].userId
  }

  /** The merged frame is the concatenation, rating by rating, of what each
      rating contributes. */
  lemma MergeByRating(ratings: seq<Rating>, movies: seq<Movie>, users: seq<User>)
    ensures Merge(ratings, movies, users) == FlatMap(ratings, (r: Rating) => RatingRows(r, movies, users))
  {
    FlatMapFlatMap(ratings, (r: Rating) => MovieMatches(r, movies), (x: RatedMovie) => UserMatches(x, users),
      (r: Rating) => RatingRows(r, movies, users));
  }

  /** A rating whose `item_id` or `user_id` finds no partner contributes no
      row. */
  lemma UnmatchedRatingDropped(r: Rating, movies: seq<Movie>, users: seq<User>)
    requires !Matched(r, movies, users)
    ensures RatingRows(r, movies, users) == []
  {
    var rows := RatingRows(r, movies, users);
    if rows != [] {
      var w := rows[0];
      FlatMapMember(MovieMatches(r, movies), (x: RatedMovie) => UserMatches(x, users), w);
      var x :| x in MovieMatches(r, movies) && w in UserMatches(x, users);
      FlatMapMember(movies, (m: Movie) => MoviePair(r, m), x);
      FlatMapMember(users, (u: User) => UserPair(x, u), w);
      assert false;
    }
  }

  /** The merge distributes over a split of the ratings, so the rows of an
      unmatched rating are absent from the merge of any table holding it. */
  lemma MergeAppend(a: seq<Rating>, b: seq<Rating>, movies: seq<Movie>, users: seq<User>)
    ensures Merge(a + b, movies, users) == Merge(a, movies, users) + Merge(b, movies, users)
  {
    MergeByRating(a + b, movies, users);
    MergeByRating(a, movies, users);
    MergeByRating(b, movies, users);
    FlatMapAppend(a, b, (r: Rating) => RatingRows(r, movies, users));
  }

  /** With unique movie ids, a rating finds at most one movie. */
  lemma {:induction false} MovieMatchesCount(r: Rating, movies: seq<Movie>)
    requires UniqueMovieIds(movies)
    ensures |MovieMatches(r, movies)| == if HasMovie(r.itemId, movies) then 1 else 0
  {
    if movies != [] {
      var rest := movies[1..];
      assert UniqueMovieIds(rest);
      MovieMatchesCount(r, rest);
      if movies[0].movieId == r.itemId {
        assert !HasMovie(r.itemId, rest) by {
          forall m | m in rest ensures m.movieId != r.itemId {
            var k :| 0 <= k < |rest| && rest[k] == m;
            assert movies[k + 1] == m;
          }
        }
      }
      assert HasMovie(r.itemId, movies) <==> movies[0].movieId == r.itemId || HasMovie(r.itemId, rest) by {
        assert forall m :: m in movies <==> m == movies[0] || m in rest;
      }
    }
  }

  /** With unique user ids, a row finds at most one user. */
  lemma {:induction false} UserMatchesCount(x: RatedMovie, users: seq<User>)
    requires UniqueUserIds(users)
    ensures |UserMatches(x, users)| == if HasUser(x.userId, users) then 1 else 0
  {
    if users != [] {
      var rest := users[1..];
      assert UniqueUserIds(rest);
      UserMatchesCount(x, rest);
      if users[0].userId == x.userId {
        assert !HasUser(x.userId, rest) by {
          forall u | u in rest ensures u.userId != x.userId {
            var k :| 0 <= k < |rest| && rest[k] == u;
            assert users[k + 1] == u;
          }
        }
      }
      assert HasUser(x.userId, users) <==> users[0].userId == x.userId || HasUser(x.userId, rest) by {
        assert forall u :: u in users <==> u == users[0] || u in rest;
      }
    }
  }

  /** With unique keys, a rating contributes one row if both its keys match
      and none otherwise. */
  lemma RatingRowsCount(r: Rating, movies: seq<Movie>, users: seq<User>)
    requires UniqueMovieIds(movies) && UniqueUserIds(users)
    ensures |RatingRows(r, movies, users)| == if Matched(r, movies, users) then 1 else 0
  {
    var mm := MovieMatches(r, movies);
    MovieMatchesCount(r, movies);
    if |mm| == 1 {
      var x := mm[0];
      FlatMapMember(movies, (m: Movie) => MoviePair(r, m), x);
      assert x.userId == r.userId;
      UserMatchesCount(x, users);
      assert mm == [x];
      assert RatingRows(r, movies, users) == UserMatches(x, users) + FlatMap(mm[1..], (x: RatedMovie) => UserMatches(x, users));
      assert mm[1..] == [];
    } else {
      assert mm == [];
    }
  }

  /** The number of ratings whose keys both find a partner. */
  function CountMatched(ratings: seq<Rating>, movies: seq<Movie>, users: seq<User>): nat {
    if ratings == [] then 0
    else (if Matched(ratings[0], movies, users) then 1 else 0) + CountMatched(ratings[1..], movies, users)
  }

  /** With unique `movie_id`s and `user_id`s the merged frame has one row per
      rating whose keys both match: at most as many rows as ratings, and as
      many exactly when every rating matches. */
  lemma {:induction false} MergeCardinality(ratings: seq<Rating>, movies: seq<Movie>, users: seq<User>)
    requires UniqueMovieIds(movies) && UniqueUserIds(users)
    ensures |Merge(ratings, movies, users)| == CountMatched(ratings, movies, users) <= |ratings|
    ensures |Merge(ratings, movies, users)| == |ratings| <==> forall r :: r in ratings ==> Matched(r, movies, users)
  {
    if ratings == [] {
    } else {
      var r, rest := ratings[0], ratings[1..];
      assert ratings == [r] + rest;
      MergeAppend([r], rest, movies, users);
      MergeByRating([r], movies, users);
      assert FlatMap([r], (r: Rating) => RatingRows(r, movies, users)) == RatingRows(r, movies, users) by {
        assert [r][1..] == [];
      }
      RatingRowsCount(r, movies, users);
      MergeCardinality(rest, movies, users);
      assert forall x :: x in ratings <==> x == r || x in rest;
    }
  }

  /** Permuting the ratings permutes the merged frame. */
  lemma MergePermutation(a: seq<Rating>, b: seq<Rating>, movies: seq<Movie>, users: seq<User>)
    requires multiset(a) == multiset(b)
    ensures multiset(Merge(a, movies, users)) == multiset(Merge(b, movies, users))
  {
    MergeByRating(a, movies, users);
    MergeByRating(b, movies, users);
    FlatMapPermutation(a, b, (r: Rating) => RatingRows(r, movies, users));
  }
}
