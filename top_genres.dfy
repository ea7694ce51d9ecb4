/** `genre_summary.apply(lambda x: x.nlargest(5).index.tolist(), axis=1)`:
    for each row of the grouped result, the names of its five largest genre
    totals. `nlargest` keeps ties in their original order (`keep='first'`),
    so genres are ranked by descending total and, among equal totals, by
    ascending declared column index. */
module TopGenres {
  import opened Seqs
  import opened Sorting
  import opened Tables
  import opened AgeGroups
  import opened Summary

  /** How many genres each result row keeps: `nlargest(5)`. */
  const TopCount: nat := 5

  /** The total of column `i`, 0 outside the row. */
  function TotalAt(totals: seq<int>, i: nat): int {
    if i < |totals| then totals[i] else 0
  }

  /** Column `i` is ranked before column `j`: a larger total, or an equal
      total and an earlier column. */
  predicate RankedBefore(totals: seq<int>, i: nat, j: nat) {
    TotalAt(totals, i) > TotalAt(totals, j)
    || (TotalAt(totals, i) == TotalAt(totals, j) && i < j)
  }

  lemma RankedBeforeIsStrictTotalOrder(totals: seq<int>)
    ensures StrictTotalOrder((i: nat, j: nat) => RankedBefore(totals, i, j))
  {
  }

  /** The column indexes `0 .. n-1`. */
  function Columns(n: nat): (cols: seq<nat>)
    ensures |cols| == n && Distinct(cols)
    ensures forall i :: 0 <= i < n ==> cols[i] == i
  {
    seq(n, i requires 0 <= i < n => i as nat)
  }

  /** Every column of the row, best ranked first: each column exactly once,
      each ranked before all that follow it. */
  function Ranking(totals: seq<int>): (ranking: seq<nat>)
    ensures |ranking| == |totals|
    ensures forall p :: 0 <= p < |ranking| ==> ranking[p] < |totals|
    ensures forall k :: 0 <= k < |totals| ==> k in ranking
    ensures forall p, q :: 0 <= p < q < |ranking| ==> RankedBefore(totals, ranking[p], ranking[q])
  {
    var less := (i: nat, j: nat) => RankedBefore(totals, i, j);
    var cols := Columns(|totals|);
    RankedBeforeIsStrictTotalOrder(totals);
    SortDistinctSpec(cols, less);
    var ranking := SortDistinct(cols, less);
    assert forall p :: 0 <= p < |ranking| ==> ranking[p] in Elements(cols);
    assert forall k :: 0 <= k < |totals| ==> k in ranking by {
      forall k | 0 <= k < |totals| ensures k in ranking {
        assert cols[k] in Elements(cols);
      }
    }
    ranking
  }

  /** The indexes of the `TopCount` largest totals, as `nlargest` picks them:
      no column twice, ordered by descending total and then by column, and
      every column left out ranked after every column kept. */
  function TopIndices(totals: seq<int>): (top: seq<nat>)
    ensures |top| == if |totals| < TopCount then |totals| else TopCount
    ensures forall p :: 0 <= p < |top| ==> top[p] < |totals|
    ensures Distinct(top)
    ensures forall p, q :: 0 <= p < q < |top| ==>
      totals[top[p]] > totals[top[q]] || (totals[top[p]] == totals[top[q]] && top[p] < top[q])
    ensures forall p, k :: 0 <= p < |top| && 0 <= k < |totals| && k !in top ==>
      totals[top[p]] > totals[k] || (totals[top[p]] == totals[k] && top[p] < k)
  {
    var ranking := Ranking(totals);
    var n := if |totals| < TopCount then |totals| else TopCount;
    var top := ranking[..n];
    assert forall p, k :: 0 <= p < |top| && 0 <= k < |totals| && k !in top ==> RankedBefore(totals, top[p], k) by {
      forall p, k | 0 <= p < |top| && 0 <= k < |totals| && k !in top ensures RankedBefore(totals, top[p], k) {
        assert k in ranking;
        var q :| 0 <= q < |ranking| && ranking[q] == k;
        assert q >= n;
      }
    }
    top
  }

  /** The names of the five genres of a row of the grouped result. */
  function TopGenreNames(totals: seq<int>): (names: seq<string>)
    requires |totals| == GenreCount
    ensures |names| == TopCount
    ensures forall p :: 0 <= p < TopCount ==> names[p] == GenreColumns[TopIndices(totals)[p]]
  {
    var top := TopIndices(totals);
    seq(TopCount, p requires 0 <= p < TopCount => GenreColumns[top[p]])
  }

  /** The first two characters of a name as one number; two names with
      different codes differ. */
  function PrefixCode(name: string): int
    requires |name| >= 2
  {
    name[0] as int * 0x1_0000 + name[1] as int
  }

  /** The prefix codes of the genre columns, in declared order. */
  const GenrePrefixCodes: seq<int> :=
    seq(GenreCount, k requires 0 <= k < GenreCount =>
      if |GenreColumns[k]| >= 2 then PrefixCode(GenreColumns[k]) else 0)

  /** The codes worked out: `'u' * 0x1_0000 + 'n'` for `unknown`, and so on. */
  lemma GenrePrefixCodesValue()
    ensures GenrePrefixCodes == [
      7667822, 4259939, 4259940, 4259950, 4391016, 4391023, 4391026, 4456559, 4456562, 4587617,
      4587625, 4718703, 5046389, 5046393, 5374063, 5439587, 5505128, 5701729, 5701733]
  {
  }

  /** A sequence that rises from each element to the next rises throughout. */
  lemma {:induction false} RisingThroughout(c: seq<int>)
    requires forall k :: 0 < k < |c| ==> c[k - 1] < c[k]
    ensures forall i, j :: 0 <= i < j < |c| ==> c[i] < c[j]
  {
    if |c| > 1 {
      var front := c[..|c| - 1];
      RisingThroughout(front);
      forall i | 0 <= i < |c| - 1 ensures c[i] < c[|c| - 1] {
        if i < |c| - 2 {
          assert front[i] < front[|c| - 2];
        }
      }
    }
  }

  /** A sequence that rises from its second element on, and whose first
      element lies above its last, holds no value twice. */
  lemma RisingAfterFirst(c: seq<int>)
    requires |c| > 0 && c[|c| - 1] < c[0]
    requires forall k :: 1 < k < |c| ==> c[k - 1] < c[k]
    ensures Distinct(c)
  {
    var rest := c[1..];
    RisingThroughout(rest);
    forall k | 1 <= k < |c| ensures c[k] < c[0] {
      if k < |c| - 1 {
        assert rest[k - 1] < rest[|c| - 2];
      }
    }
  }

  /** After `unknown` the prefix codes rise, and `unknown`'s lies above
      them all, so no code occurs twice. */
  lemma GenrePrefixCodesDistinct()
    ensures Distinct(GenrePrefixCodes)
  {
    GenrePrefixCodesValue();
    RisingAfterFirst(GenrePrefixCodes);
  }

  /** No genre name occurs twice among the declared columns. */
  lemma GenreColumnsDistinct()
    ensures Distinct(GenreColumns)
  {
    GenrePrefixCodesDistinct();
    forall i, j | 0 <= i < j < GenreCount ensures GenreColumns[i] != GenreColumns[j] {
      assert GenrePrefixCodes[i] != GenrePrefixCodes[j];
    }
  }

  /** The five names of a row are five different genres. */
  lemma TopGenreNamesDistinct(totals: seq<int>)
    requires |totals| == GenreCount
    ensures Distinct(TopGenreNames(totals))
  {
    GenreColumnsDistinct();
  }

  /** When every total is equal, e.g. for a group with no rows, the five
      genres are the first five declared columns. */
  lemma TiedTopGenres(totals: seq<int>)
    requires |totals| == GenreCount
    requires forall k :: 0 <= k < GenreCount ==> totals[k] == totals[0]
    ensures TopGenreNames(totals) == ["unknown", "Action", "Adventure", "Animation", "Children's"]
  {
    TiedTopIndices(totals);
    var names := TopGenreNames(totals);
    assert names[0] == GenreColumns[0] && names[1] == GenreColumns[1] && names[2] == GenreColumns[2];
    assert names[3] == GenreColumns[3] && names[4] == GenreColumns[4];
  }

  /** With all totals tied, `nlargest` keeps the first five columns. */
  lemma TiedTopIndices(totals: seq<int>)
    requires |totals| >= TopCount
    requires forall k :: 0 <= k < |totals| ==> totals[k] == totals[0]
    ensures TopIndices(totals) == [0, 1, 2, 3, 4]
  {
    var top := TopIndices(totals);
    TiedOrder(totals, top);
    FirstColumns(top, |totals|);
  }

  /** Under a tie, the order `nlargest` keeps is the column order. */
  lemma TiedOrder(totals: seq<int>, top: seq<nat>)
    requires forall k :: 0 <= k < |totals| ==> totals[k] == totals[0]
    requires forall p :: 0 <= p < |top| ==> top[p] < |totals|
    requires forall p, q :: 0 <= p < q < |top| ==>
      totals[top[p]] > totals[top[q]] || (totals[top[p]] == totals[top[q]] && top[p] < top[q])
    requires forall p, k :: 0 <= p < |top| && 0 <= k < |totals| && k !in top ==>
      totals[top[p]] > totals[k] || (totals[top[p]] == totals[k] && top[p] < k)
    ensures forall p, q :: 0 <= p < q < |top| ==> top[p] < top[q]
    ensures forall k, p :: 0 <= k < |totals| && k !in top && 0 <= p < |top| ==> top[p] < k
  {
    forall p, q | 0 <= p < q < |top| ensures top[p] < top[q] {
      assert totals[top[p]] == totals[top[q]];
    }
    forall k, p | 0 <= k < |totals| && k !in top && 0 <= p < |top| ensures top[p] < k {
      assert totals[top[p]] == totals[k];
    }
  }

  /** An increasing choice of columns below `bound` such that every column
      left out lies above all chosen ones is the first `|top|` columns. */
  lemma FirstColumns(top: seq<nat>, bound: nat)
    requires |top| <= bound
    requires forall p :: 0 <= p < |top| ==> top[p] < bound
    requires forall p, q :: 0 <= p < q < |top| ==> top[p] < top[q]
    requires forall k, p :: 0 <= k < bound && k !in top && 0 <= p < |top| ==> top[p] < k
    ensures forall p :: 0 <= p < |top| ==> top[p] == p
  {
    for i := 0 to |top|
      invariant forall p :: 0 <= p < i ==> top[p] == p
    {
      if i > 0 {
        assert top[i - 1] == i - 1;
      }
      // top[i] lies above top[i - 1], so top[i] >= i; were it above i,
      // column i would be left out and yet lie below a chosen column.
      assert top[i] >= i;
      assert i in top ==> top[i] == i;
    }
  }

  /** A row of the result frame: the group's keys and its genre names. */
  datatype ResultRow = ResultRow(ageGroup: AgeGroup, occupation: string, topGenres: seq<string>)

  /** `top_genres_df`: one result row per row of the grouped result, in the
      same order, with the same keys. */
  function TopGenresFrame(summary: seq<SummaryRow>): (result: seq<ResultRow>)
    requires forall s :: s in summary ==> |s.totals| == GenreCount
    ensures |result| == |summary|
    ensures forall i :: 0 <= i < |summary| ==>
      && result[i].ageGroup == summary[i].ageGroup
      && result[i].occupation == summary[i].occupation
      && result[i].topGenres == TopGenreNames(summary[i].totals)
  {
    seq(|summary|, i requires 0 <= i < |summary| =>
      ResultRow(summary[i].ageGroup, summary[i].occupation, TopGenreNames(summary[i].totals)))
  }
}
