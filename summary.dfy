/** `merged_data.groupby(['age_group', 'occupation'], observed=False)
    [genre_columns].sum()`: one row per age label crossed with each
    occupation of the frame, labels in declared order and occupations in
    sorted order, each holding, per genre column, the sum of the coerced
    fields of the rows in that group. A pair with no rows gets all zeros; a
    row without an age label is in no group. */
module Summary {
  import opened Seqs
  import opened Sorting
  import opened Tables
  import opened Join
  import opened AgeGroups
  import opened Coercion

  /** Row `r` belongs to the group of `g` and `occupation`. */
  predicate InGroup(r: LabelledRow, g: AgeGroup, occupation: string) {
    r.ageGroup == Some(g) && r.row.occupation == occupation
  }

  /** What `r` adds to genre column `k` of the group of `g` and `occupation`. */
  function Contribution(r: LabelledRow, g: AgeGroup, occupation: string, k: nat): int
    requires k < GenreCount
  {
    if InGroup(r, g, occupation) then NumericValue(r.row.genres[k]) else 0
  }

  /** The sum of genre column `k` over the group. */
  function GenreTotal(rows: seq<LabelledRow>, g: AgeGroup, occupation: string, k: nat): int
    requires k < GenreCount
  {
    SumOf(rows, (r: LabelledRow) => Contribution(r, g, occupation, k))
  }

  /** The summed genre columns of the group, in declared order: column `k`
      holds the sum of the coerced `k`-th fields of the group's rows. */
  function GenreTotals(rows: seq<LabelledRow>, g: AgeGroup, occupation: string): (totals: seq<int>)
    ensures |totals| == GenreCount
    ensures forall k :: 0 <= k < GenreCount ==>
      totals[k] == SumOf(GroupRows(rows, g, occupation), (r: LabelledRow) => NumericValue(r.row.genres[k]))
  {
    assert forall k :: 0 <= k < GenreCount ==>
      GenreTotal(rows, g, occupation, k)
        == SumOf(GroupRows(rows, g, occupation), (r: LabelledRow) => NumericValue(r.row.genres[k]))
    by {
      forall k | 0 <= k < GenreCount {
        GenreTotalIsGroupSum(rows, g, occupation, k);
      }
    }
    seq(GenreCount, k requires 0 <= k < GenreCount => GenreTotal(rows, g, occupation, k))
  }

  /** The rows of the group, in frame order. */
  function GroupRows(rows: seq<LabelledRow>, g: AgeGroup, occupation: string): seq<LabelledRow> {
    if rows == [] then []
    else
      var head := if InGroup(rows[0], g, occupation) then [rows[0]] else [];
      head + GroupRows(rows[1..], g, occupation)
  }

  /** The total of a genre column is the sum of that column's coerced fields
      over exactly the rows of the group. */
  lemma {:induction false} GenreTotalIsGroupSum(rows: seq<LabelledRow>, g: AgeGroup, occupation: string, k: nat)
    requires k < GenreCount
    ensures GenreTotal(rows, g, occupation, k)
      == SumOf(GroupRows(rows, g, occupation), (r: LabelledRow) => NumericValue(r.row.genres[k]))
  {
    if rows != [] {
      GenreTotalIsGroupSum(rows[1..], g, occupation, k);
      var head := if InGroup(rows[0], g, occupation) then [rows[0]] else [];
      SumOfAppend(head, GroupRows(rows[1..], g, occupation), (r: LabelledRow) => NumericValue(r.row.genres[k]));
      if head != [] {
        assert head[1..] == [];
      }
    }
  }

  /** The `occupation` column of the frame. */
  function OccupationColumn(rows: seq<LabelledRow>): (col: seq<string>)
    ensures Elements(col) == set r | r in rows :: r.row.occupation
  {
    var col := seq(|rows|, i requires 0 <= i < |rows| => rows[i].row.occupation);
    assert forall r :: r in rows ==> r.row.occupation in col by {
      forall r | r in rows ensures r.row.occupation in col {
        var i :| 0 <= i < |rows| && rows[i] == r;
        assert col[i] == r.row.occupation;
      }
    }
    col
  }

  /** The occupations of the frame, each once, in sorted order: the second
      key's levels in the grouped result. */
  function Occupations(rows: seq<LabelledRow>): (occupations: seq<string>)
    ensures StrictlySorted(occupations, StringLess)
    ensures Elements(occupations) == set r | r in rows :: r.row.occupation
  {
    StringLessIsStrictTotalOrder();
    SortDistinctSpec(OccupationColumn(rows), StringLess);
    SortDistinct(OccupationColumn(rows), StringLess)
  }

  /** A row of the grouped result. */
  datatype SummaryRow = SummaryRow(ageGroup: AgeGroup, occupation: string, totals: seq<int>)

  /** The rows of the result for one age label. */
  function Block(rows: seq<LabelledRow>, g: AgeGroup, occupations: seq<string>): seq<SummaryRow> {
    seq(|occupations|, j requires 0 <= j < |occupations| =>
      SummaryRow(g, occupations[j], GenreTotals(rows, g, occupations[j])))
  }

  /** The rows of the result for the age labels from position `a` on. */
  function Blocks(rows: seq<LabelledRow>, occupations: seq<string>, a: nat): seq<SummaryRow>
    decreases |AgeGroupOrder| - a
  {
    if a >= |AgeGroupOrder| then []
    else Block(rows, AgeGroupOrder[a], occupations) + Blocks(rows, occupations, a + 1)
  }

  /** The grouped and summed frame: one row per age label and occupation of
      the frame, each holding the totals of its group. */
  function Summarize(rows: seq<LabelledRow>): (summary: seq<SummaryRow>)
    ensures |summary| == |AgeGroupOrder| * |Occupations(rows)|
    ensures forall s :: s in summary ==>
      s.occupation in Occupations(rows) && s.totals == GenreTotals(rows, s.ageGroup, s.occupation)
  {
    BlocksLength(rows, Occupations(rows), 0);
    BlocksMembers(rows, Occupations(rows), 0);
    Blocks(rows, Occupations(rows), 0)
  }

  /** The order of the grouped result: by label, then by occupation. */
  predicate KeyLess(x: SummaryRow, y: SummaryRow) {
    Rank(x.ageGroup) < Rank(y.ageGroup)
    || (x.ageGroup == y.ageGroup && StringLess(x.occupation, y.occupation))
  }

  lemma {:induction false} BlocksLength(rows: seq<LabelledRow>, occupations: seq<string>, a: nat)
    requires a <= |AgeGroupOrder|
    ensures |Blocks(rows, occupations, a)| == (|AgeGroupOrder| - a) * |occupations|
    decreases |AgeGroupOrder| - a
  {
    if a < |AgeGroupOrder| {
      BlocksLength(rows, occupations, a + 1);
      calc {
        (|AgeGroupOrder| - a) * |occupations|;
        |occupations| + (|AgeGroupOrder| - (a + 1)) * |occupations|;
      }
    }
  }

  lemma {:induction false} BlocksMembers(rows: seq<LabelledRow>, occupations: seq<string>, a: nat)
    ensures forall s :: s in Blocks(rows, occupations, a) ==>
      && Rank(s.ageGroup) >= a
      && s.occupation in occupations
      && s.totals == GenreTotals(rows, s.ageGroup, s.occupation)
    decreases |AgeGroupOrder| - a
  {
    if a < |AgeGroupOrder| {
      BlocksMembers(rows, occupations, a + 1);
      var b := Block(rows, AgeGroupOrder[a], occupations);
      assert Rank(AgeGroupOrder[a]) == a;
      forall s: SummaryRow | s in b
        ensures Rank(s.ageGroup) >= a && s.occupation in occupations
        ensures s.totals == GenreTotals(rows, s.ageGroup, s.occupation)
      {
        var j :| 0 <= j < |b| && b[j] == s;
      }
    }
  }

  lemma {:induction false} BlocksCover(rows: seq<LabelledRow>, occupations: seq<string>, a: nat)
    ensures forall g, o :: Rank(g) >= a && o in occupations ==>
      SummaryRow(g, o, GenreTotals(rows, g, o)) in Blocks(rows, occupations, a)
    decreases |AgeGroupOrder| - a
  {
    if a < |AgeGroupOrder| {
      BlocksCover(rows, occupations, a + 1);
      var g := AgeGroupOrder[a];
      var b := Block(rows, g, occupations);
      forall g', o | Rank(g') == a && o in occupations
        ensures SummaryRow(g', o, GenreTotals(rows, g', o)) in b
      {
        assert g' == g;
        var j :| 0 <= j < |occupations| && occupations[j] == o;
        assert b[j] == SummaryRow(g', o, GenreTotals(rows, g', o));
      }
    }
  }

  /** The rows of one label follow the order of the occupations. */
  lemma BlockSorted(rows: seq<LabelledRow>, g: AgeGroup, occupations: seq<string>)
    requires StrictlySorted(occupations, StringLess)
    ensures StrictlySorted(Block(rows, g, occupations), KeyLess)
  {
    var b := Block(rows, g, occupations);
    forall i, j | 0 <= i < j < |b| ensures KeyLess(b[i], b[j]) {
      assert StringLess(occupations[i], occupations[j]);
    }
  }

  lemma {:induction false} BlocksSorted(rows: seq<LabelledRow>, occupations: seq<string>, a: nat)
    requires StrictlySorted(occupations, StringLess)
    ensures StrictlySorted(Blocks(rows, occupations, a), KeyLess)
    decreases |AgeGroupOrder| - a
  {
    if a < |AgeGroupOrder| {
      var g := AgeGroupOrder[a];
      var b := Block(rows, g, occupations);
      var rest := Blocks(rows, occupations, a + 1);
      BlocksSorted(rows, occupations, a + 1);
      BlocksMembers(rows, occupations, a + 1);
      BlockSorted(rows, g, occupations);
      assert Rank(g) == a;
      forall i, j | 0 <= i < |b| && 0 <= j < |rest| ensures KeyLess(b[i], rest[j]) {
        assert rest[j] in rest;
      }
      SortedConcat(b, rest, KeyLess);
    }
  }

  /** The grouped result covers each age label crossed with each occupation
      of the frame, names only occupations that occur in it, and comes in
      label-then-occupation order, so with no key twice. */
  lemma SummaryShape(rows: seq<LabelledRow>)
    ensures forall s :: s in Summarize(rows) ==> exists r :: r in rows && r.row.occupation == s.occupation
    ensures forall g, r :: r in rows ==>
      SummaryRow(g, r.row.occupation, GenreTotals(rows, g, r.row.occupation)) in Summarize(rows)
    ensures StrictlySorted(Summarize(rows), KeyLess)
    ensures forall i, j :: 0 <= i < j < |Summarize(rows)| ==>
      (Summarize(rows)[i].ageGroup, Summarize(rows)[i].occupation)
        != (Summarize(rows)[j].ageGroup, Summarize(rows)[j].occupation)
  {
    var occupations := Occupations(rows);
    BlocksCover(rows, occupations, 0);
    BlocksSorted(rows, occupations, 0);
    var s := Summarize(rows);
    forall x | x in s ensures exists r :: r in rows && r.row.occupation == x.occupation {
      assert x.occupation in Elements(occupations);
    }
    forall g, r | r in rows
      ensures SummaryRow(g, r.row.occupation, GenreTotals(rows, g, r.row.occupation)) in s
    {
      assert r.row.occupation in Elements(occupations);
    }
    forall i, j | 0 <= i < j < |s|
      ensures (s[i].ageGroup, s[i].occupation) != (s[j].ageGroup, s[j].occupation)
    {
      assert KeyLess(s[i], s[j]);
      StringLessIrreflexive(s[i].occupation);
    }
  }

  /** An age label and occupation with no rows get zero in every column. */
  lemma EmptyGroupIsZero(rows: seq<LabelledRow>, g: AgeGroup, occupation: string)
    requires forall r :: r in rows ==> !InGroup(r, g, occupation)
    ensures GenreTotals(rows, g, occupation) == seq(GenreCount, _ => 0)
  {
    forall k | 0 <= k < GenreCount ensures GenreTotal(rows, g, occupation, k) == 0 {
      SumOfZero(rows, (r: LabelledRow) => Contribution(r, g, occupation, k));
    }
  }

  /** A row without an age label adds nothing to any group. */
  lemma UnlabelledRowIgnored(rows: seq<LabelledRow>, x: LabelledRow)
    requires x.ageGroup == None
    ensures forall g, o :: GenreTotals(rows + [x], g, o) == GenreTotals(rows, g, o)
  {
    forall g, o, k | 0 <= k < GenreCount
      ensures GenreTotal(rows + [x], g, o, k) == GenreTotal(rows, g, o, k)
    {
      SumOfAppend(rows, [x], (r: LabelledRow) => Contribution(r, g, o, k));
      assert [x][1..] == [];
    }
    forall g, o ensures GenreTotals(rows + [x], g, o) == GenreTotals(rows, g, o) {
    }
  }

  /** The result depends on the frame only through its occupations and its
      group totals. */
  lemma SummarizeByTotals(a: seq<LabelledRow>, b: seq<LabelledRow>)
    requires Occupations(a) == Occupations(b)
    requires forall g, o :: GenreTotals(a, g, o) == GenreTotals(b, g, o)
    ensures Summarize(a) == Summarize(b)
  {
    var occupations := Occupations(a);
    var i := |AgeGroupOrder|;
    while i > 0
      invariant 0 <= i <= |AgeGroupOrder|
      invariant Blocks(a, occupations, i) == Blocks(b, occupations, i)
    {
      i := i - 1;
      assert Block(a, AgeGroupOrder[i], occupations) == Block(b, AgeGroupOrder[i], occupations);
    }
  }

  /** Permuting the rows of the frame changes nothing in the result. */
  lemma SummarizePermutation(a: seq<LabelledRow>, b: seq<LabelledRow>)
    requires multiset(a) == multiset(b)
    ensures Summarize(a) == Summarize(b)
  {
    assert forall r :: r in a <==> r in b by {
      forall r ensures r in a <==> r in b {
        assert r in a <==> r in multiset(a);
        assert r in b <==> r in multiset(b);
      }
    }
    StringLessIsStrictTotalOrder();
    SortedUnique(Occupations(a), Occupations(b), StringLess);
    forall g, o, k | 0 <= k < GenreCount ensures GenreTotal(a, g, o, k) == GenreTotal(b, g, o, k) {
      SumOfPermutation(a, b, (r: LabelledRow) => Contribution(r, g, o, k));
    }
    forall g, o ensures GenreTotals(a, g, o) == GenreTotals(b, g, o) {
    }
    SummarizeByTotals(a, b);
  }

  /** `a` and `b` differ at most in their `rating` fields. */
  ghost predicate SameButRating(a: seq<LabelledRow>, b: seq<LabelledRow>) {
    |a| == |b| &&
    forall i :: 0 <= i < |a| ==> a[i] == b[i].(row := b[i].row.(rating := a[i].row.rating))
  }

  /** The `rating` column takes no part in the result. */
  lemma SummarizeIgnoresRating(a: seq<LabelledRow>, b: seq<LabelledRow>)
    requires SameButRating(a, b)
    ensures Summarize(a) == Summarize(b)
  {
    assert OccupationColumn(a) == OccupationColumn(b);
    forall g, o, k | 0 <= k < GenreCount ensures GenreTotal(a, g, o, k) == GenreTotal(b, g, o, k) {
      SumOfPointwise(a, b,
        (r: LabelledRow) => Contribution(r, g, o, k),
        (r: LabelledRow) => Contribution(r, g, o, k));
    }
    forall g, o ensures GenreTotals(a, g, o) == GenreTotals(b, g, o) {
    }
    SummarizeByTotals(a, b);
  }
}
