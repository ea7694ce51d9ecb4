/** `save_to_postgres`: the `top_genres` table and the loop that appends one
    record per result row. The table is created when it does not exist yet
    (`CREATE TABLE IF NOT EXISTS`); its `id SERIAL` column numbers records
    from 1 upwards; rows already in the table are kept, and nothing is
    deduplicated. */
module Persistence {
  import opened AgeGroups
  import opened TopGenres
  import opened Tables
  import opened ArrayLiteral

  /** A record of the table: `id, age_group, occupation, top_genres`. */
  datatype Record = Record(id: int, ageGroup: string, occupation: string, topGenres: string)

  /** The ids of a record list rise strictly, start at 1 or above and stay
      below `next`, the value the id sequence hands out next. */
  ghost predicate IdsBelow(records: seq<Record>, next: int) {
    && (forall i :: 0 <= i < |records| ==> 1 <= records[i].id < next)
    && (forall i, j :: 0 <= i < j < |records| ==> records[i].id < records[j].id)
  }

  /** The table named `top_genres` in the database. */
  class GenreTable {
    /** The table exists. */
    var created: bool
    /** Its records, in insertion order. */
    var records: seq<Record>
    /** The next value of the `id` sequence. */
    var nextId: int

    ghost predicate Valid()
      reads this
    {
      && nextId >= 1
      && (!created ==> records == [])
      && IdsBelow(records, nextId)
    }

    /** A database in which the table does not exist yet. */
    constructor ()
      ensures Valid()
      ensures !created && records == [] && nextId == 1
    {
      created := false;
      records := [];
      nextId := 1;
    }

    /** `CREATE TABLE IF NOT EXISTS`: an existing table is left as it is. */
    method CreateIfNotExists()
      requires Valid()
      modifies this
      ensures Valid()
      ensures created && records == old(records) && nextId == old(nextId)
    {
      created := true;
    }

    /** `INSERT INTO ... (age_group, occupation, top_genres) VALUES (...)`:
        the record takes the next id and goes after every other. */
    method Insert(ageGroup: string, occupation: string, topGenres: string)
      requires Valid() && created
      modifies this
      ensures Valid() && created
      ensures records == old(records) + [Record(old(nextId), ageGroup, occupation, topGenres)]
      ensures nextId == old(nextId) + 1
    {
      records := records + [Record(nextId, ageGroup, occupation, topGenres)];
      nextId := nextId + 1;
    }
  }

  /** The record written for result row `row` with id `id`: the row's label
      text, its occupation and the literal of its genre names. */
  function RowRecord(row: ResultRow, id: int): (rec: Record)
    ensures rec.id == id && rec.ageGroup == Label(row.ageGroup) && rec.occupation == row.occupation
  {
    Record(id, Label(row.ageGroup), row.occupation, EncodeArray(row.topGenres))
  }

  /** The records a save of `rows` appends when the id sequence is at
      `firstId`. */
  function NewRecords(rows: seq<ResultRow>, firstId: int): (records: seq<Record>)
    ensures |records| == |rows|
  {
    seq(|rows|, i requires 0 <= i < |rows| => RowRecord(rows[i], firstId + i))
  }

  /** The appended records carry consecutive ids from `firstId`, and each
      gives back its row's keys and, read as an array, its genre names. */
  lemma NewRecordsContent(rows: seq<ResultRow>, firstId: int, i: nat)
    requires i < |rows|
    ensures NewRecords(rows, firstId)[i].id == firstId + i
    ensures NewRecords(rows, firstId)[i].ageGroup == Label(rows[i].ageGroup)
    ensures NewRecords(rows, firstId)[i].occupation == rows[i].occupation
    ensures (forall j :: 0 <= j < |rows[i].topGenres| ==> NoQuote(rows[i].topGenres[j])) ==>
      DecodeArray(NewRecords(rows, firstId)[i].topGenres) == Some(rows[i].topGenres)
  {
    if forall j :: 0 <= j < |rows[i].topGenres| ==> NoQuote(rows[i].topGenres[j]) {
      DecodeEncodeArray(rows[i].topGenres);
    }
  }

  /** Saving `a` and then `b` appends what saving `a + b` appends: the loop
      keeps every row, duplicates included, and numbers them in order. */
  lemma {:induction false} NewRecordsAppend(a: seq<ResultRow>, b: seq<ResultRow>, firstId: int)
    ensures NewRecords(a + b, firstId) == NewRecords(a, firstId) + NewRecords(b, firstId + |a|)
  {
    var lhs := NewRecords(a + b, firstId);
    var rhs := NewRecords(a, firstId) + NewRecords(b, firstId + |a|);
    forall i | 0 <= i < |lhs| ensures lhs[i] == rhs[i] {
      if i >= |a| {
        assert (a + b)[i] == b[i - |a|];
      }
    }
  }

  /** Saving one more row appends its record, with the next id. */
  lemma NewRecordsSnoc(rows: seq<ResultRow>, row: ResultRow, firstId: int)
    ensures NewRecords(rows + [row], firstId) == NewRecords(rows, firstId) + [RowRecord(row, firstId + |rows|)]
  {
    NewRecordsAppend(rows, [row], firstId);
  }

  /** The ids a save hands out rise from `firstId`, so appending them to a
      table whose ids lie below `firstId` keeps its ids rising. */
  lemma NewRecordsIds(records: seq<Record>, rows: seq<ResultRow>, firstId: int)
    requires IdsBelow(records, firstId) && firstId >= 1
    ensures IdsBelow(records + NewRecords(rows, firstId), firstId + |rows|)
  {
  }

  /** `save_to_postgres(table_name, df)`: create the table if needed, then
      insert the rows of `df` one by one, in order. */
  method SaveToPostgres(table: GenreTable, df: seq<ResultRow>)
    requires table.Valid()
    modifies table
    ensures table.Valid() && table.created
    ensures table.records == old(table.records) + NewRecords(df, old(table.nextId))
    ensures table.nextId == old(table.nextId) + |df|
  {
    table.CreateIfNotExists();
    ghost var before := table.records;
    ghost var firstId := table.nextId;
    for i := 0 to |df|
      invariant table.Valid() && table.created
      invariant table.nextId == firstId + i
      invariant table.records == before + NewRecords(df[..i], firstId)
    {
      var row := df[i];
      var genresArray := EncodeArray(row.topGenres);
      table.Insert(Label(row.ageGroup), row.occupation, genresArray);
      NewRecordsSnoc(df[..i], row, firstId);
      assert df[..i + 1] == df[..i] + [row];
    }
    assert df[..|df|] == df;
  }

  /** Saving the same frame twice stores every row twice: the second save
      appends the same records again, with fresh ids, and deduplicates
      nothing. */
  method SaveTwice(table: GenreTable, df: seq<ResultRow>)
    requires table.Valid()
    modifies table
    ensures table.Valid()
    ensures table.records
      == old(table.records) + NewRecords(df, old(table.nextId)) + NewRecords(df, old(table.nextId) + |df|)
  {
    SaveToPostgres(table, df);
    SaveToPostgres(table, df);
  }
}
