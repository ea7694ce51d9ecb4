/** The text stored in the `top_genres TEXT[]` column: the genre names, each
    between double quotes, joined by `", "` and wrapped in braces, as in
    `{"Drama", "Comedy"}`. `DecodeArray` reads such a literal back. */
module ArrayLiteral {
  import opened Tables
  import opened Seqs

  const Quote: char := '"'

  /** The summed lengths of `parts`, each counted with one `sep` after it. */
  function LengthWithSeparators(parts: seq<string>, sep: string): nat {
    if parts == [] then 0 else |parts[0]| + |sep| + LengthWithSeparators(parts[1..], sep)
  }

  /** Python's `sep.join(parts)`: the parts in order with one `sep` between
      each two, so nothing but the separators is added. */
  function JoinWith(parts: seq<string>, sep: string): (s: string)
    ensures parts == [] ==> s == ""
    ensures parts != [] ==> |s| + |sep| == LengthWithSeparators(parts, sep)
    ensures parts != [] ==> s + sep == FlatMap(parts, (p: string) => p + sep)
  {
    if |parts| == 0 then ""
    else if |parts| == 1 then parts[0]
    else parts[0] + sep + JoinWith(parts[1..], sep)
  }

  /** `f'"{genre}"'`: the name between two double quotes, read back by
      dropping the first and last character. */
  function Quoted(name: string): (q: string)
    ensures |q| == |name| + 2 && q[0] == Quote && q[|q| - 1] == Quote
    ensures q[1..|q| - 1] == name
  {
    [Quote] + name + [Quote]
  }

  /** Every name quoted. */
  function QuoteAll(names: seq<string>): (quoted: seq<string>)
    ensures |quoted| == |names|
    ensures forall i :: 0 <= i < |names| ==> quoted[i] == Quoted(names[i])
  {
    seq(|names|, i requires 0 <= i < |names| => Quoted(names[i]))
  }

  /** The literal written for a list of genre names. */
  function EncodeArray(names: seq<string>): (s: string)
    ensures |s| >= 2 && s[0] == '{' && s[|s| - 1] == '}'
  {
    "{" + JoinWith(QuoteAll(names), ", ") + "}"
  }

  predicate NoQuote(name: string) {
    Quote !in name
  }

  /** The position of the first double quote in `t` at or after `from`, or
      `|t|` when there is none. */
  function NextQuote(t: string, from: nat): (j: nat)
    requires from <= |t|
    ensures from <= j <= |t|
    ensures j < |t| ==> t[j] == Quote
    ensures forall i :: from <= i < j ==> t[i] != Quote
    decreases |t| - from
  {
    if from == |t| || t[from] == Quote then from else NextQuote(t, from + 1)
  }

  /** The names of a non-empty list of quoted names separated by `", "`. */
  function DecodeItems(t: string): Option<seq<string>>
    decreases |t|
  {
    if |t| < 2 || t[0] != Quote then None
    else
      var j := NextQuote(t, 1);
      if j == |t| then None
      else
        var name := t[1..j];
        var rest := t[j + 1..];
        if rest == "" then Some([name])
        else if |rest| >= 2 && rest[..2] == ", " then
          match DecodeItems(rest[2..])
          case None => None
          case Some(names) => Some([name] + names)
        else None
  }

  /** The names held by a literal, or none when `s` is not of that form. */
  function DecodeArray(s: string): Option<seq<string>> {
    if |s| < 2 || s[0] != '{' || s[|s| - 1] != '}' then None
    else if s == "{}" then Some([])
    else DecodeItems(s[1..|s| - 1])
  }

  /** The first name of an encoded list is read up to its closing quote. */
  lemma {:induction false} NextQuoteOfQuoted(name: string, tail: string)
    requires NoQuote(name)
    ensures NextQuote(Quoted(name) + tail, 1) == |name| + 1
  {
    NextQuoteFrom(name, tail, 1);
  }

  lemma {:induction false} NextQuoteFrom(name: string, tail: string, from: nat)
    requires NoQuote(name) && 1 <= from <= |name| + 1
    ensures NextQuote(Quoted(name) + tail, from) == |name| + 1
    decreases |name| + 1 - from
  {
    var t := Quoted(name) + tail;
    if from <= |name| {
      assert t[from] == name[from - 1];
      NextQuoteFrom(name, tail, from + 1);
    }
  }

  /** A single quoted name reads back as that name. */
  lemma DecodeItemsOne(name: string)
    requires NoQuote(name)
    ensures DecodeItems(Quoted(name)) == Some([name])
  {
    var t := Quoted(name);
    assert t == Quoted(name) + "";
    NextQuoteOfQuoted(name, "");
    assert t[1..|name| + 1] == name;
    assert t[|name| + 2..] == "";
  }

  /** A quoted name followed by `", "` reads as that name, then the rest. */
  lemma DecodeItemsCons(name: string, tail: string)
    requires NoQuote(name) && DecodeItems(tail).Some?
    ensures DecodeItems(Quoted(name) + (", " + tail)) == Some([name] + DecodeItems(tail).value)
  {
    var t := Quoted(name) + (", " + tail);
    NextQuoteOfQuoted(name, ", " + tail);
    var j := |name| + 1;
    assert t[0] == Quote && t[j] == Quote && |t| == j + 3 + |tail|;
    assert t[1..j] == name;
    var rest := t[j + 1..];
    assert rest == ", " + tail;
    assert |rest| >= 2 && rest[..2] == ", ";
    assert rest[2..] == tail;
  }

  /** Reading back the items of a non-empty list of names. */
  lemma {:induction false} DecodeItemsJoin(names: seq<string>)
    requires |names| > 0
    requires forall i :: 0 <= i < |names| ==> NoQuote(names[i])
    ensures DecodeItems(JoinWith(QuoteAll(names), ", ")) == Some(names)
  {
    if |names| == 1 {
      DecodeItemsOne(names[0]);
      assert [names[0]] == names;
    } else {
      var tail := JoinWith(QuoteAll(names[1..]), ", ");
      JoinQuotedCons(names);
      DecodeItemsJoin(names[1..]);
      DecodeItemsCons(names[0], tail);
      assert [names[0]] + names[1..] == names;
    }
  }

  /** Every list of names without double quotes reads back from its literal. */
  lemma DecodeEncodeArray(names: seq<string>)
    requires forall i :: 0 <= i < |names| ==> NoQuote(names[i])
    ensures DecodeArray(EncodeArray(names)) == Some(names)
  {
    var s := EncodeArray(names);
    assert s[1..|s| - 1] == JoinWith(QuoteAll(names), ", ");
    if |names| > 0 {
      DecodeItemsJoin(names);
      assert s != "{}" by {
        assert s[1] == Quote;
      }
    }
  }

  /** A text that opens with a quote and has another at `j` is the quoted
      name between them followed by the remainder. */
  lemma SplitQuoted(t: string, j: nat)
    requires 1 <= j < |t| && t[0] == Quote && t[j] == Quote
    ensures t == Quoted(t[1..j]) + t[j + 1..]
  {
  }

  /** The text between the first two quotes holds no quote. */
  lemma BetweenQuotes(t: string, j: nat)
    requires 1 <= j <= |t|
    requires forall i :: 1 <= i < j ==> t[i] != Quote
    ensures NoQuote(t[1..j])
  {
    var name := t[1..j];
    forall i | 0 <= i < |name| ensures name[i] != Quote {
      assert name[i] == t[i + 1];
    }
  }

  /** What a successful `DecodeItems` found at the front of `t`: a quoted
      name, then either the end or `", "` and more items. */
  lemma DecodeItemsHead(t: string)
    requires DecodeItems(t).Some?
    ensures var j := NextQuote(t, 1);
      && 1 <= j < |t| && t[0] == Quote
      && (t[j + 1..] == "" ==> DecodeItems(t).value == [t[1..j]])
      && (t[j + 1..] != "" ==>
            && |t[j + 1..]| >= 2
            && t[j + 1..] == ", " + t[j + 3..]
            && DecodeItems(t[j + 3..]).Some?
            && DecodeItems(t).value == [t[1..j]] + DecodeItems(t[j + 3..]).value)
  {
    var j := NextQuote(t, 1);
    var rest := t[j + 1..];
    if rest != "" {
      assert rest[2..] == t[j + 3..];
      assert rest == rest[..2] + rest[2..];
    }
  }

  /** The encoding of a list of two or more names is the first quoted name,
      `", "`, and the encoding of the rest. */
  lemma JoinQuotedCons(names: seq<string>)
    requires |names| > 1
    ensures JoinWith(QuoteAll(names), ", ") == Quoted(names[0]) + (", " + JoinWith(QuoteAll(names[1..]), ", "))
  {
    assert QuoteAll(names)[1..] == QuoteAll(names[1..]);
  }

  /** Whatever `DecodeItems` reads is a non-empty list of names without
      double quotes whose encoding is the text it read. */
  lemma {:induction false} EncodeDecodeItems(t: string, names: seq<string>)
    requires DecodeItems(t) == Some(names)
    ensures |names| > 0
    ensures forall i :: 0 <= i < |names| ==> NoQuote(names[i])
    ensures JoinWith(QuoteAll(names), ", ") == t
    decreases |t|
  {
    DecodeItemsHead(t);
    var j := NextQuote(t, 1);
    var name := t[1..j];
    SplitQuoted(t, j);
    BetweenQuotes(t, j);
    if t[j + 1..] != "" {
      var tail := t[j + 3..];
      var tailNames := DecodeItems(tail).value;
      EncodeDecodeItems(tail, tailNames);
      assert names == [name] + tailNames;
      assert names[1..] == tailNames;
      JoinQuotedCons(names);
      forall i | 0 <= i < |names| ensures NoQuote(names[i]) {
        if i > 0 {
          assert names[i] == tailNames[i - 1];
        }
      }
    }
  }

  /** A literal that reads back is exactly the encoding of what it holds:
      together with `DecodeEncodeArray`, encoding and decoding are inverse
      on lists of names without double quotes. */
  lemma EncodeDecodeArray(s: string)
    requires DecodeArray(s).Some?
    ensures forall i :: 0 <= i < |DecodeArray(s).value| ==> NoQuote(DecodeArray(s).value[i])
    ensures EncodeArray(DecodeArray(s).value) == s
  {
    var names := DecodeArray(s).value;
    if s == "{}" {
      assert names == [];
    } else {
      var body := s[1..|s| - 1];
      EncodeDecodeItems(body, names);
      Braced(s);
    }
  }

  /** A text between braces is its inside, wrapped in braces. */
  lemma Braced(s: string)
    requires |s| >= 2 && s[0] == '{' && s[|s| - 1] == '}'
    ensures s == "{" + s[1..|s| - 1] + "}"
  {
  }

  /** Two lists of names without double quotes share a literal only when
      they are the same list. */
  lemma EncodeArrayInjective(a: seq<string>, b: seq<string>)
    requires forall i :: 0 <= i < |a| ==> NoQuote(a[i])
    requires forall i :: 0 <= i < |b| ==> NoQuote(b[i])
    requires EncodeArray(a) == EncodeArray(b)
    ensures a == b
  {
    DecodeEncodeArray(a);
    DecodeEncodeArray(b);
  }

  /** No genre column name holds a double quote. */
  lemma GenreNamesUnquoted()
    ensures forall k :: 0 <= k < GenreCount ==> NoQuote(GenreColumns[k])
  {
    forall k | 0 <= k < GenreCount ensures NoQuote(GenreColumns[k]) {
    }
  }
}
