# Top genres per age group and occupation

This project models in Dafny the analysis that the Airflow operator
`UserOccupationGenreAnalysisOperator` performs on the MovieLens 100k tables.
The pipeline runs as follows:

1. The ratings are joined with the 19 genre-flag columns of the movies, then
   with the age and occupation of the users.
2. Every age gets a label: `<20`, `20-25`, `25-35`, `35-45` or `45+`.
3. The genre fields are coerced to numbers.
4. The fields are summed per (age label, occupation).
5. The five genres with the largest sums are picked for each group.
6. One record per group is appended to the PostgreSQL table `top_genres`,
   with the genre list written as a `TEXT[]` literal.

The pipeline is modelled with pure functions over sequences of records:

- `Join`: the two inner merges.
- `AgeGroups`: `pd.cut` with `right=False`.
- `Coercion`: `pd.to_numeric(errors='coerce')` followed by `fillna(0)`.
- `Summary`: `groupby(..., observed=False).sum()`.
- `TopGenres`: `nlargest(5)`, which keeps ties by first occurrence.
- `ArrayLiteral`: the `{"g1", "g2"}` text and a reader for it.

`Persistence` models `save_to_postgres`:

- The table is a class, `GenreTable`, with a flag saying whether it exists.
- It holds its records in insertion order.
- It keeps the next value of its `SERIAL` id.
- The save is a method with the loop of the source, which appends one record
  per result row.

`Pipeline` composes the steps into `execute`. `Seqs` and `Sorting` hold the
generic pieces:

- sums over rows;
- flat-map, which is the shape of an inner join;
- sorting with deduplication, which gives the sorted unique occupations that
  `groupby` uses;
- Python's code-point order on strings.

Decisions about pandas behaviour:

- **Row order of the merge.** The model lets each left row yield its matches
  in the order of the right table. This is an order the model picks, not a
  documented guarantee: pandas only promises that an inner merge keeps the
  order of the left keys, and before version 2.2 it grouped the rows by key.
  Nothing downstream depends on this order: `AnalyzeOrderIndependent` proves
  it.
- **Occupations of the grouped result.** `groupby` takes the distinct values
  of the whole joined `occupation` column, sorted, and this includes rows
  whose age has no label. The grouped result has one row per age label
  (label order first) crossed with each of these occupations. This is what
  `observed=False` does with a categorical key.
- **What is summed, and over which groups.** The source sums the 0/1 genre
  flags without weighting them by `rating`. It keeps every (label,
  occupation) pair, including pairs that have no rows. The model follows
  the code, which matches its own docstring (line 85).
  `SummarizeIgnoresRating` states the first point and `SummaryShape` the
  second.
- **Length of `top_genres`.** The list always holds exactly five names,
  because there are 19 genre columns.

## Model

| member | source | states |
|---|---|---|
| Join.MergeMovies | dags/operators/genere_operator.py:100-103 | the first merge's rows are exactly the pairings of a rating with a movie whose `movie_id` equals its `item_id`: every row is such a pairing, and every such pairing is a row |
| Join.MergeUsers | dags/operators/genere_operator.py:103-104 | the second merge's rows are exactly the pairings of a row with a user having its `user_id`, extended by that user's age and occupation: every row is such a pairing, and every such pairing is a row |
| Join.Merge | dags/operators/genere_operator.py:100-104 | every merged row is made of a rating, a movie whose `movie_id` equals the rating's `item_id`, and a user with the rating's `user_id`; and every such rating, movie and user make a merged row |
| Join.UnmatchedRatingDropped | dags/operators/genere_operator.py:100-104 | a rating whose `item_id` or `user_id` finds no partner contributes no row |
| Join.MergeByRating | dags/operators/genere_operator.py:100-104 | the merged frame is the concatenation, rating by rating, of the rows each rating contributes |
| Join.MergeAppend | dags/operators/genere_operator.py:100-104 | merging a split table is merging its parts and concatenating |
| Join.MergeCardinality | dags/operators/genere_operator.py:100-104 | with unique movie and user ids the merge has one row per rating whose keys both match: at most as many rows as ratings, and exactly as many iff every rating matches |
| Join.MergePermutation | dags/operators/genere_operator.py:100-104 | permuting the ratings permutes the merged rows |
| AgeGroups.Rank | dags/operators/genere_operator.py:108 | each label's category code is its position among the five labels in declared order |
| AgeGroups.Label | dags/operators/genere_operator.py:108-109 | a label's text is the one listed at its category code among `<20`, `20-25`, `25-35`, `35-45`, `45+` |
| AgeGroups.LabelInjective | dags/operators/genere_operator.py:108 | no two labels share a text, so the stored `age_group` text identifies the label |
| AgeGroups.Cut | dags/operators/genere_operator.py:107-109 | left-closed binning: no bin below the first edge; otherwise the bin whose lower edge is at or below `x` and whose next edge is above it |
| AgeGroups.AgeGroupOf | dags/operators/genere_operator.py:107-109 | an age gets no label exactly when it lies below the first edge (0); otherwise its label's bin has its lower edge at or below the age and its next edge, when there is one, above it |
| AgeGroups.AgeGroupPartition | dags/operators/genere_operator.py:106-109 | a negative age gets no label; `<20` iff 0 <= age < 20, `20-25` iff 20 <= age < 25, `25-35` iff 25 <= age < 35, `35-45` iff 35 <= age < 45, `45+` iff age >= 45 |
| AgeGroups.AssignAgeGroups | dags/operators/genere_operator.py:109 | adding the label column keeps every row of the frame, in order, and gives each row the label of its age (`AgeGroupOf`) |
| Coercion.ParseInteger | dags/operators/genere_operator.py:113 | text parses exactly when it is an optional sign followed by one or more decimal digits |
| Coercion.ParseIntegerText | dags/operators/genere_operator.py:113 | the decimal text of every integer parses back to it |
| Coercion.ToNumeric | dags/operators/genere_operator.py:113 | coercion never fails and always gives a number: numbers are kept, numeric text becomes its value, and missing or unparsable fields become 0 |
| Coercion.ToNumericIdempotent | dags/operators/genere_operator.py:113 | coercing a coerced field changes nothing |
| Coercion.ToNumericOfText | dags/operators/genere_operator.py:113 | the text of a number coerces to that number |
| Coercion.CoerceFlags | dags/operators/genere_operator.py:113 | each genre field of a row is replaced by its coerced value, so every field becomes a number and numbers are kept |
| Coercion.CoerceGenres | dags/operators/genere_operator.py:112-113 | every genre field of every row becomes a number, the other columns and the row count are unchanged |
| Coercion.CoerceNumericFrame | dags/operators/genere_operator.py:112-113 | a frame whose genre fields are all numbers is left as it is |
| Coercion.CoerceGenresIdempotent | dags/operators/genere_operator.py:112-113 | coercing the frame twice equals coercing it once |
| Sorting.SortDistinctSpec | dags/operators/genere_operator.py:116 | sorting with deduplication gives a strictly sorted list of exactly the input's values, as long as the input when it has no duplicates |
| Sorting.SortedUnique | dags/operators/genere_operator.py:116 | two strictly sorted lists of the same values are equal, so the occupation levels depend only on which occupations occur |
| Sorting.StringLessIsStrictTotalOrder | dags/operators/genere_operator.py:116 | Python's code-point order on strings, used to sort the occupations, is a strict total order |
| Summary.GenreTotals | dags/operators/genere_operator.py:116 | a group holds one total per genre column, and column `k` is the sum of the coerced `k`-th fields over exactly the rows of the group |
| Summary.GenreTotalIsGroupSum | dags/operators/genere_operator.py:116 | a group's total for a genre is the sum of that genre's coerced fields over exactly the rows of the group |
| Summary.Occupations | dags/operators/genere_operator.py:116 | the occupation levels are strictly sorted and are exactly the occupations present in the frame |
| Summary.Summarize | dags/operators/genere_operator.py:116 | the grouped frame has 5 x (number of occupations) rows, each keyed by an occupation level and holding its group's totals |
| Summary.SummaryShape | dags/operators/genere_operator.py:109-116 | the grouped frame names only occupations present in the frame, has a row for every label and occupation present, and comes in label-then-occupation order with no key twice |
| Summary.EmptyGroupIsZero | dags/operators/genere_operator.py:116 | a label and occupation with no rows sum to zero in every genre |
| Summary.UnlabelledRowIgnored | dags/operators/genere_operator.py:109-116 | a row whose age has no label adds nothing to any group |
| Summary.SummarizeByTotals | dags/operators/genere_operator.py:116 | the grouped frame depends on the rows only through their occupations and the group totals |
| Summary.SummarizePermutation | dags/operators/genere_operator.py:116 | permuting the rows leaves the grouped frame unchanged |
| Summary.SummarizeIgnoresRating | dags/operators/genere_operator.py:116 | the `rating` column takes no part in the grouped frame |
| TopGenres.Ranking | dags/operators/genere_operator.py:117 | the ranking lists every genre column of a row exactly once, by descending total and then ascending column |
| TopGenres.TopIndices | dags/operators/genere_operator.py:117 | `nlargest(5)` with first-occurrence ties: min(5, n) distinct columns in range, ordered by descending total then ascending column, and every column left out ranks after every column kept |
| TopGenres.TopGenreNames | dags/operators/genere_operator.py:117 | a row's list holds five names, the genre names of the picked columns, in pick order |
| TopGenres.GenreColumnsDistinct | dags/operators/genere_operator.py:93-95 | no genre name is declared twice |
| TopGenres.TopGenreNamesDistinct | dags/operators/genere_operator.py:117 | the five names of a row are five different genres |
| TopGenres.TiedTopIndices | dags/operators/genere_operator.py:117 | when all totals are equal the first five columns are picked |
| TopGenres.TiedTopGenres | dags/operators/genere_operator.py:93-95 | a row whose totals are all equal, e.g. all zero, gets `unknown, Action, Adventure, Animation, Children's` |
| TopGenres.TopGenresFrame | dags/operators/genere_operator.py:117 | the result frame has one row per grouped row, in the same order, with the same keys |
| ArrayLiteral.JoinWith | dags/operators/genere_operator.py:67 | `", ".join` of no parts is empty; otherwise the result followed by one more separator is every part followed by a separator, in order: the parts in order with exactly one separator between each two and nothing else added |
| ArrayLiteral.Quoted | dags/operators/genere_operator.py:67 | a quoted name opens and closes with `"`, and dropping those two characters gives the name back |
| ArrayLiteral.EncodeArray | dags/operators/genere_operator.py:67 | the literal opens with `{` and closes with `}` |
| ArrayLiteral.DecodeEncodeArray | dags/operators/genere_operator.py:67 | any list of names without `"` reads back, in order, from its literal |
| ArrayLiteral.EncodeDecodeArray | dags/operators/genere_operator.py:67 | a text that reads back as a list is exactly the literal of that list, and that list has no `"` in any name |
| ArrayLiteral.EncodeArrayInjective | dags/operators/genere_operator.py:67 | two lists of names without `"` share a literal only when they are equal |
| ArrayLiteral.GenreNamesUnquoted | dags/operators/genere_operator.py:93-95 | no genre name contains `"` |
| Persistence.GenreTable.constructor | dags/operators/genere_operator.py:56-63 | a database without the table: no records, and the id sequence at 1 |
| Persistence.GenreTable.CreateIfNotExists | dags/operators/genere_operator.py:56-63 | afterwards the table exists, and an existing table keeps its records and id sequence |
| Persistence.GenreTable.Insert | dags/operators/genere_operator.py:68-69 | the record is appended with the next id, which then advances by one, and ids keep rising |
| Persistence.RowRecord | dags/operators/genere_operator.py:67-69 | the record of a row carries the given id, the text of the row's label and its occupation; `NewRecordsContent` adds that its literal reads back as the row's list |
| Persistence.NewRecords | dags/operators/genere_operator.py:66-69 | a save appends one record per row; `NewRecordsContent` gives each record's id and fields, and `NewRecordsAppend` its order |
| Persistence.NewRecordsContent | dags/operators/genere_operator.py:66-69 | the i-th appended record has id first + i, the row's age label and occupation for every row; and, when no name in the row's list contains `"`, a genre literal that reads back as that list |
| Persistence.NewRecordsAppend | dags/operators/genere_operator.py:66-69 | appending for `a` then for `b` is appending for `a + b`: every row is kept, duplicates included, numbered in order |
| Persistence.NewRecordsIds | dags/operators/genere_operator.py:58 | the new ids lie above every existing id and keep the table's ids strictly rising |
| Persistence.SaveToPostgres | dags/operators/genere_operator.py:56-71 | the table exists afterwards, the old records are untouched, one record per result row is appended in order with consecutive ids, and the id sequence advances by the number of rows |
| Persistence.SaveTwice | dags/operators/genere_operator.py:56-71 | saving the same frame twice stores each row twice, with fresh ids |
| Pipeline.PrepareRow | dags/operators/genere_operator.py:109-113 | a merged row entering the grouping gets the label of its age and a number in every genre field, equal to the field's coerced value, and nothing else changes |
| Pipeline.PreparedRows | dags/operators/genere_operator.py:100-113 | the frame handed to `groupby` has one row per merged row, labelled and coerced |
| Pipeline.Analyze | dags/operators/genere_operator.py:100-117 | the result has 5 rows per occupation present in the joined frame |
| Pipeline.ResultFrame | dags/operators/genere_operator.py:116-117 | one result row per label and occupation |
| Pipeline.ResultFrameRow | dags/operators/genere_operator.py:116-117 | each result row's occupation is present in the frame, and its list is the top five of its group's totals |
| Pipeline.ResultFrameCovers | dags/operators/genere_operator.py:116-117 | every age label with every occupation present has a result row |
| Pipeline.ResultFrameOrder | dags/operators/genere_operator.py:116-117 | result rows come in label order, then in occupation code-point order, so no key occurs twice |
| Pipeline.EmptyGroupTopGenres | dags/operators/genere_operator.py:116-117 | a group with no rows gets `unknown, Action, Adventure, Animation, Children's` |
| Pipeline.AnalyzeNoRatings | dags/operators/genere_operator.py:100-117 | no ratings give an empty result |
| Pipeline.AnalyzeOrderIndependent | dags/operators/genere_operator.py:100-117 | the order of the ratings does not change the result |
| Pipeline.StoredGenresReadBack | dags/operators/genere_operator.py:67-69 | every stored genre literal reads back as its result row's list |
| Pipeline.Execute | dags/operators/genere_operator.py:99-120 | the table gets the analysis result appended after its old records, one record per result row |

## Left out

- Airflow scaffolding is not modelled: `BaseOperator`, `apply_defaults`, reading `paths_config.ini` through `configparser` and `CONFIG_PATH`, and the log line after saving. These are orchestration and configuration I/O.
- `pd.read_csv` (lines 90-97) is not modelled: tab and pipe splitting, ISO-8859-1 decoding, and the inference of column types. The three tables are passed in as sequences of records with the declared columns.
- The database plumbing is not modelled: `psycopg2.connect` with credentials from the environment, the SQL text, `commit` and `close`. The table is an in-memory append-only store. A failure between the inserts and the single commit, which would roll back the whole save, is not modelled, and neither are concurrent writers.
- `SaveToPostgres`: the model hands out consecutive ids from a counter. Real `SERIAL` values can skip, after rolled-back inserts or inserts from other sessions, and that is not modelled.
- `DecodeArray` reads only the plain form that line 67 writes. How PostgreSQL parses a `TEXT[]` literal is not modelled, including backslash escapes and unquoted elements.
- Floats are not modelled: ages and genre fields are integers, and the last age bin has no upper edge instead of `float('inf')`. A missing (NaN) age is not modelled.
- `ToNumeric`: text that spells a decimal or exponent number (`"1.0"`, `"1e3"`) counts as unparsable and becomes 0. `pd.to_numeric` would turn such text into a float, and floats are not modelled. Surrounding whitespace is not stripped either.
- `TopIndices`: the sums are integers. The float sums pandas would produce after coercion are not modelled.
- `GenreTotal`: genre fields (`Num`) and their sums are unbounded integers. pandas sums integer columns as 64-bit integers, which wrap silently on overflow, and `pd.to_numeric` turns integer text beyond the 64-bit range into a float. Neither is modelled.
- `Summary.InGroup`: a user's occupation is always a string. `pd.read_csv` turns an empty field into NaN, and `groupby` then drops that row and never makes NaN a level. The model cannot express a missing occupation, so it does not capture that case.
- `GenreTable.Insert`: the `age_group` and `occupation` columns are `VARCHAR(255)` (lines 59-60). An occupation longer than 255 characters makes the `INSERT` raise, and because there is a single commit the whole save is then lost. The model accepts any length.
