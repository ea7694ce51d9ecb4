/** `merged_data[genre_columns].apply(pd.to_numeric, errors='coerce')
    .fillna(0)`: every genre field becomes a number. A number stays as it
    is, text that spells an integer becomes that integer, and an empty field
    or text that spells no number becomes 0. Nothing here can fail. */
module Coercion {
  import opened Tables
  import opened AgeGroups

  predicate IsDigit(c: char) {
    '0' <= c <= '9'
  }

  /** One or more decimal digits and nothing else. */
  predicate AllDigits(s: string) {
    |s| > 0 && forall i :: 0 <= i < |s| ==> IsDigit(s[i])
  }

  /** The value of a string of decimal digits. */
  function DigitsValue(s: string): nat
    requires forall i :: 0 <= i < |s| ==> IsDigit(s[i])
  {
    if s == [] then 0
    else
      assert IsDigit(s[|s| - 1]);
      10 * DigitsValue(s[..|s| - 1]) + (s[|s| - 1] as int - '0' as int)
  }

  /** The integer the text `s` spells: an optional sign and at least one
      decimal digit. */
  function ParseInteger(s: string): (r: Option<int>)
    ensures r.Some? <==> AllDigits(s) || (|s| > 1 && (s[0] == '-' || s[0] == '+') && AllDigits(s[1..]))
  {
    if |s| > 1 && (s[0] == '-' || s[0] == '+') && AllDigits(s[1..]) then
      Some(if s[0] == '-' then -(DigitsValue(s[1..]) as int) else DigitsValue(s[1..]))
    else if AllDigits(s) then Some(DigitsValue(s))
    else None
  }

  /** The decimal text of a natural number, as Python's `str` writes it. */
  function NatText(n: nat): (s: string)
    ensures AllDigits(s)
  {
    if n < 10 then ['0' + n as char]
    else NatText(n / 10) + ['0' + (n % 10) as char]
  }

  /** The decimal text of an integer, with a leading `-` when negative. */
  function IntText(n: int): string {
    if n < 0 then "-" + NatText(-n) else NatText(n)
  }

  lemma {:induction false} NatTextValue(n: nat)
    ensures DigitsValue(NatText(n)) == n
  {
    if n >= 10 {
      NatTextValue(n / 10);
      var s := NatText(n);
      assert s[..|s| - 1] == NatText(n / 10);
    }
  }

  /** The text of every integer parses back to it. */
  lemma ParseIntegerText(n: int)
    ensures ParseInteger(IntText(n)) == Some(n)
  {
    var s := IntText(n);
    if n < 0 {
      NatTextValue(-n);
      assert s[1..] == NatText(-n);
      assert !AllDigits(s) by {
        assert !IsDigit(s[0]);
      }
    } else {
      NatTextValue(n);
      assert IsDigit(s[0]);
    }
  }

  /** `pd.to_numeric(errors='coerce')` followed by `fillna(0)`. */
  function ToNumeric(c: Cell): (r: Cell)
    ensures r.Num?
    ensures c.Num? ==> r == c
    ensures c.Missing? ==> r == Num(0)
    ensures c.Text? && ParseInteger(c.s).None? ==> r == Num(0)
    ensures c.Text? && ParseInteger(c.s).Some? ==> r == Num(ParseInteger(c.s).value)
  {
    match c
    case Num(_) => c
    case Missing => Num(0)
    case Text(s) =>
      match ParseInteger(s)
      case Some(n) => Num(n)
      case None => Num(0)
  }

  /** The number a genre field counts as once coerced. */
  function NumericValue(c: Cell): int {
    ToNumeric(c).n
  }

  /** Coercing a coerced field changes nothing. */
  lemma ToNumericIdempotent(c: Cell)
    ensures ToNumeric(ToNumeric(c)) == ToNumeric(c)
  {
  }

  /** The text of a number coerces to that number. */
  lemma ToNumericOfText(n: int)
    ensures ToNumeric(Text(IntText(n))) == Num(n)
  {
    ParseIntegerText(n);
  }

  /** The genre fields of one row, coerced. */
  function CoerceFlags(flags: GenreFlags): (r: GenreFlags)
    ensures forall k :: 0 <= k < GenreCount ==> r[k] == ToNumeric(flags[k])
    ensures forall k :: 0 <= k < GenreCount ==> r[k].Num? && (flags[k].Num? ==> r[k] == flags[k])
  {
    seq(GenreCount, k requires 0 <= k < GenreCount => ToNumeric(flags[k]))
  }

  /** Every genre field of every row is a number. */
  ghost predicate AllNumeric(rows: seq<LabelledRow>) {
    forall i, k :: 0 <= i < |rows| && 0 <= k < GenreCount ==> rows[i].row.genres[k].Num?
  }

  /** Line 113 on the whole frame: only the genre fields change. */
  function CoerceGenres(rows: seq<LabelledRow>): (r: seq<LabelledRow>)
    ensures |r| == |rows| && AllNumeric(r)
    ensures forall i :: 0 <= i < |rows| ==>
      r[i] == rows[i].(row := rows[i].row.(genres := CoerceFlags(rows[i].row.genres)))
  {
    seq(|rows|, i requires 0 <= i < |rows| =>
      rows[i].(row := rows[i].row.(genres := CoerceFlags(rows[i].row.genres))))
  }

  /** A frame whose genre fields are all numbers is left as it is. */
  lemma CoerceNumericFrame(rows: seq<LabelledRow>)
    requires AllNumeric(rows)
    ensures CoerceGenres(rows) == rows
  {
    var r := CoerceGenres(rows);
    forall i | 0 <= i < |rows| ensures r[i] == rows[i] {
      assert CoerceFlags(rows[i].row.genres) == rows[i].row.genres;
    }
  }

  /** Coercing twice is coercing once. */
  lemma CoerceGenresIdempotent(rows: seq<LabelledRow>)
    ensures CoerceGenres(CoerceGenres(rows)) == CoerceGenres(rows)
  {
    CoerceNumericFrame(CoerceGenres(rows));
  }
}
