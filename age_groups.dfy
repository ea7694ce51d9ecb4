/** The `age_group` column: `pd.cut` of `age` into the bins [0,20), [20,25),
    [25,35), [35,45) and [45, infinity), closed on the left (`right=False`).
    An age below the first edge falls in no bin and gets no label. */
module AgeGroups {
  import opened Tables
  import opened Join

  /** The five age labels, as categories in their declared order. */
  datatype AgeGroup = Under20 | From20To25 | From25To35 | From35To45 | From45

  /** The categories in declared order; `AgeGroupOrder[Rank(g)] == g`. */
  const AgeGroupOrder: seq<AgeGroup> := [Under20, From20To25, From25To35, From35To45, From45]

  /** The lower edges of the bins; the last bin has no upper edge. */
  const AgeBinEdges: seq<int> := [0, 20, 25, 35, 45]

  /** The label texts, in declared order. */
  const AgeLabels: seq<string> := ["<20", "20-25", "25-35", "35-45", "45+"]

  /** The text of each label: the one listed at its category code. */
  function Label(g: AgeGroup): (s: string)
    ensures s == AgeLabels[Rank(g)]
  {
    match g
    case Under20 => "<20"
    case From20To25 => "20-25"
    case From25To35 => "25-35"
    case From35To45 => "35-45"
    case From45 => "45+"
  }

  /** The category code of a label: its position in declared order. */
  function Rank(g: AgeGroup): (i: nat)
    ensures i < |AgeGroupOrder| && AgeGroupOrder[i] == g
  {
    match g
    case Under20 => 0
    case From20To25 => 1
    case From25To35 => 2
    case From35To45 => 3
    case From45 => 4
  }

  ghost predicate Increasing(edges: seq<int>) {
    forall i, j :: 0 <= i < j < |edges| ==> edges[i] < edges[j]
  }

  /** The bin of `x` among left-closed bins starting at `edges`, the last
      unbounded above; none when `x` lies below the first edge. */
  function Cut(x: int, edges: seq<int>): (bin: Option<nat>)
    requires Increasing(edges)
    ensures bin.None? <==> edges == [] || x < edges[0]
    ensures bin.Some? ==> bin.value < |edges| && edges[bin.value] <= x
    ensures bin.Some? && bin.value + 1 < |edges| ==> x < edges[bin.value + 1]
  {
    if edges == [] then None
    else if edges[|edges| - 1] <= x then Some(|edges| - 1)
    else Cut(x, edges[..|edges| - 1])
  }

  /** The age group of `age`: the label whose bin, from its lower edge up to
      the next edge, holds `age`, or none below the first edge. */
  function AgeGroupOf(age: int): (g: Option<AgeGroup>)
    ensures g.None? <==> age < AgeBinEdges[0]
    ensures g.Some? ==> AgeBinEdges[Rank(g.value)] <= age
    ensures g.Some? && Rank(g.value) + 1 < |AgeBinEdges| ==> age < AgeBinEdges[Rank(g.value) + 1]
  {
    match Cut(age, AgeBinEdges)
    case None => None
    case Some(i) =>
      assert Rank(AgeGroupOrder[i]) == i by {
        assert i < 5;
      }
      Some(AgeGroupOrder[i])
  }

  /** Two labels with the same text are the same label, so the stored
      `age_group` text identifies the label. */
  lemma LabelInjective(g: AgeGroup, h: AgeGroup)
    requires Label(g) == Label(h)
    ensures g == h
  {
  }

  /** The five labels partition the non-negative ages into the intended
      ranges, and a negative age gets no label. */
  lemma AgeGroupPartition(age: int)
    ensures AgeGroupOf(age) == None <==> age < 0
    ensures AgeGroupOf(age) == Some(Under20) <==> 0 <= age < 20
    ensures AgeGroupOf(age) == Some(From20To25) <==> 20 <= age < 25
    ensures AgeGroupOf(age) == Some(From25To35) <==> 25 <= age < 35
    ensures AgeGroupOf(age) == Some(From35To45) <==> 35 <= age < 45
    ensures AgeGroupOf(age) == Some(From45) <==> 45 <= age
  {
    var bin := Cut(age, AgeBinEdges);
    if bin.Some? {
      assert bin.value < 5;
    }
  }

  /** A row of the merged frame with its `age_group` column. */
  datatype LabelledRow = LabelledRow(row: MergedRow, ageGroup: Option<AgeGroup>)

  /** `merged_data['age_group'] = pd.cut(merged_data['age'], ...)` */
  function AssignAgeGroups(rows: seq<MergedRow>): (labelled: seq<LabelledRow>)
    ensures |labelled| == |rows|
    ensures forall i :: 0 <= i < |rows| ==> labelled[i].row == rows[i]
    ensures forall i :: 0 <= i < |rows| ==> labelled[i].ageGroup == AgeGroupOf(rows[i].age)
  {
    seq(|rows|, i requires 0 <= i < |rows| => LabelledRow(rows[i], AgeGroupOf(rows[i].age)))
  }
}
