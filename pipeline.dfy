/** `UserOccupationGenreAnalysisOperator.execute`: join the three tables, label the
    ages, coerce the genre fields, group and sum, pick each group's five
    genres, and save the result in the `top_genres` table. Reading the CSV
    files is left to the caller, who passes the parsed tables in. */
module Pipeline {
  import opened Seqs
  import opened Tables
  import opened Join
  import opened AgeGroups
  import opened Coercion
  import opened Summary
  import opened TopGenres
  import opened ArrayLiteral
  import opened Persistence

  /** One merged row as it enters the grouping: labelled by its age, with
      every genre field a number, and nothing else changed. */
  function PrepareRow(w: MergedRow): (r: LabelledRow)
    ensures r.ageGroup == AgeGroupOf(w.age)
    ensures r.row.(genres := w.genres) == w
    ensures forall k :: 0 <= k < GenreCount ==>
      r.row.genres[k].Num? && NumericValue(w.genres[k]) == r.row.genres[k].n
  {
    LabelledRow(w.(genres := CoerceFlags(w.genres)), AgeGroupOf(w.age))
  }

  /** The frame handed to `groupby`: the merged rows, each with its age
      label and with its genre fields coerced to numbers. */
  function PreparedRows(ratings: seq<Rating>, movies: seq<Movie>, users: seq<User>): (rows: seq<LabelledRow>)
    ensures var merged := Merge(ratings, movies, users);
      |rows| == |merged| && forall i :: 0 <= i < |merged| ==> rows[i] == PrepareRow(merged[i])
  {
    CoerceGenres(AssignAgeGroups(Merge(ratings, movies, users)))
  }

  /** `top_genres_df` for the given tables. */
  function Analyze(ratings: seq<Rating>, movies: seq<Movie>, users: seq<User>): (result: seq<ResultRow>)
    ensures |result| == |AgeGroupOrder| * |Occupations(PreparedRows(ratings, movies, users))|
  {
    ResultFrame(PreparedRows(ratings, movies, users))
  }

  /** The result frame built from the grouped frame of `rows`. */
  function ResultFrame(rows: seq<LabelledRow>): (result: seq<ResultRow>)
    ensures |result| == |AgeGroupOrder| * |Occupations(rows)|
  {
    SummaryShape(rows);
    TopGenresFrame(Summarize(rows))
  }

  /** Each result row is keyed by an age label and an occupation of the
      frame, and names the five genres of that group's totals as `nlargest`
      picks them. */
  lemma ResultFrameRow(rows: seq<LabelledRow>, i: nat)
    requires i < |ResultFrame(rows)|
    ensures ResultFrame(rows)[i].occupation in Occupations(rows)
    ensures var row := ResultFrame(rows)[i];
      row.topGenres == TopGenreNames(GenreTotals(rows, row.ageGroup, row.occupation))
  {
    var summary := Summarize(rows);
    SummaryShape(rows);
    assert summary[i] in summary;
    var r :| r in rows && r.row.occupation == summary[i].occupation;
    assert r.row.occupation in Elements(Occupations(rows));
  }

  /** Every age label and every occupation of the frame has its result row. */
  lemma ResultFrameCovers(rows: seq<LabelledRow>, g: AgeGroup, o: string)
    requires o in Occupations(rows)
    ensures exists i :: 0 <= i < |ResultFrame(rows)| && ResultFrame(rows)[i].ageGroup == g && ResultFrame(rows)[i].occupation == o
  {
    var summary := Summarize(rows);
    SummaryShape(rows);
    assert o in Elements(Occupations(rows));
    var r :| r in rows && r.row.occupation == o;
    var s := SummaryRow(g, o, GenreTotals(rows, g, o));
    assert s in summary;
    var i :| 0 <= i < |summary| && summary[i] == s;
    assert ResultFrame(rows)[i].ageGroup == g && ResultFrame(rows)[i].occupation == o;
  }

  /** The result rows come in label-then-occupation order, so no key occurs
      twice. */
  lemma ResultFrameOrder(rows: seq<LabelledRow>, i: nat, j: nat)
    requires i < j < |ResultFrame(rows)|
    ensures var x := ResultFrame(rows)[i];
      var y := ResultFrame(rows)[j];
      Rank(x.ageGroup) < Rank(y.ageGroup)
      || (x.ageGroup == y.ageGroup && Sorting.StringLess(x.occupation, y.occupation))
  {
    var summary := Summarize(rows);
    SummaryShape(rows);
    assert KeyLess(summary[i], summary[j]);
  }

  /** A group with no rows, which `observed=False` keeps, sums to zero in
      every genre and so names the first five declared genres. */
  lemma EmptyGroupTopGenres(rows: seq<LabelledRow>, i: nat)
    requires i < |ResultFrame(rows)|
    requires forall r :: r in rows ==> !InGroup(r, ResultFrame(rows)[i].ageGroup, ResultFrame(rows)[i].occupation)
    ensures ResultFrame(rows)[i].topGenres == ["unknown", "Action", "Adventure", "Animation", "Children's"]
  {
    var row := ResultFrame(rows)[i];
    ResultFrameRow(rows, i);
    EmptyGroupIsZero(rows, row.ageGroup, row.occupation);
    TiedTopGenres(GenreTotals(rows, row.ageGroup, row.occupation));
  }

  /** No ratings, no result rows. */
  lemma AnalyzeNoRatings(movies: seq<Movie>, users: seq<User>)
    ensures Analyze([], movies, users) == []
  {
    var rows := PreparedRows([], movies, users);
    assert Merge([], movies, users) == [];
    assert rows == [];
    ElementsEmpty(Occupations(rows));
  }

  /** The order of the ratings file does not matter. */
  lemma AnalyzeOrderIndependent(a: seq<Rating>, b: seq<Rating>, movies: seq<Movie>, users: seq<User>)
    requires multiset(a) == multiset(b)
    ensures Analyze(a, movies, users) == Analyze(b, movies, users)
  {
    MergePermutation(a, b, movies, users);
    MapPermutation(Merge(a, movies, users), Merge(b, movies, users),
      PreparedRows(a, movies, users), PreparedRows(b, movies, users), PrepareRow);
    SummarizePermutation(PreparedRows(a, movies, users), PreparedRows(b, movies, users));
  }

  /** Every genre name of the result reads back from the stored literal. */
  lemma StoredGenresReadBack(ratings: seq<Rating>, movies: seq<Movie>, users: seq<User>, firstId: int, i: nat)
    requires i < |Analyze(ratings, movies, users)|
    ensures var result := Analyze(ratings, movies, users);
      DecodeArray(NewRecords(result, firstId)[i].topGenres) == Some(result[i].topGenres)
  {
    var rows := PreparedRows(ratings, movies, users);
    var result := Analyze(ratings, movies, users);
    ResultFrameRow(rows, i);
    GenreNamesUnquoted();
    var totals := GenreTotals(rows, result[i].ageGroup, result[i].occupation);
    assert forall p :: 0 <= p < TopCount ==> NoQuote(TopGenreNames(totals)[p]);
    NewRecordsContent(result, firstId, i);
  }

  /** `execute`: analyse the tables and append the result to the table. */
  method Execute(table: GenreTable, ratings: seq<Rating>, movies: seq<Movie>, users: seq<User>)
    requires table.Valid()
    modifies table
    ensures table.Valid() && table.created
    ensures table.records == old(table.records) + NewRecords(Analyze(ratings, movies, users), old(table.nextId))
    ensures table.nextId == old(table.nextId) + |Analyze(ratings, movies, users)|
  {
    var topGenres := Analyze(ratings, movies, users);
    SaveToPostgres(table, topGenres);
  }
}
