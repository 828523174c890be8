/**
 * The admin's report export (`exportCSV`): a header line with the seven
 * column names, then one line per suggestion in list order; each field is
 * `JSON.stringify(s[h] ?? "")`, fields are joined by commas and lines by
 * line feeds. Beside it, a reader that splits the report into lines and each
 * line into JSON literals, and the proof that it recovers every field.
 */
module Csv {
  import opened Common
  import opened Strings
  import opened Json
  import opened Suggestions

  /** A row as the client library delivers it: field name to value; a missing key is `undefined`. */
  type Record = map<string, Value>

  /** The columns, in order. */
  const Header: seq<string> := ["id", "nama", "kategori", "judul", "isi", "status", "tanggal"]

  /** `header.join(",")`. */
  function HeaderLine(): string {
    Join(Header, ',')
  }

  /** `r[key] ?? ""`: a missing or null field becomes the empty string. */
  function Coalesce(r: Record, key: string): Value {
    if key in r && !r[key].Null? then r[key] else Str("")
  }

  /** The values written for one row: `header.map(h => s[h] ?? "")`. */
  function Cells(r: Record): seq<Value> {
    [ Coalesce(r, "id"), Coalesce(r, "nama"), Coalesce(r, "kategori"), Coalesce(r, "judul"),
      Coalesce(r, "isi"), Coalesce(r, "status"), Coalesce(r, "tanggal") ]
  }

  /** Each value passed through `JSON.stringify`. */
  function StringifyAll(vs: seq<Value>): (w: seq<string>)
    decreases |vs|
  {
    if vs == [] then [] else [Stringify(vs[0])] + StringifyAll(vs[1..])
  }

  /** One data line of the report. */
  function RowLine(r: Record): string {
    Join(StringifyAll(Cells(r)), ',')
  }

  /** `rows.map(RowLine)`. */
  function RowLines(rows: seq<Record>): seq<string>
    decreases |rows|
  {
    if rows == [] then [] else [RowLine(rows[0])] + RowLines(rows[1..])
  }

  /** The whole report: `[header.join(","), ...rows].join("\n")`. */
  function ExportCsv(rows: seq<Record>): (r: string)
    ensures HeaderLine() <= r
    ensures rows == [] ==> r == HeaderLine()
  {
    Join([HeaderLine()] + RowLines(rows), '\n')
  }

  /** Reads a line as comma-separated JSON literals, up to its end. */
  function ParseFields(t: string): Option<seq<Value>>
    decreases |t|
  {
    match ParseValue(t)
    case None => None
    case Some((v, rest)) =>
      if rest == [] then Some([v])
      else if rest[0] != ',' then None
      else
        match ParseFields(rest[1..])
        case None => None
        case Some(vs) => Some([v] + vs)
  }

  /** The header line splits at commas into exactly the seven column names, and holds no line feed. */
  lemma HeaderLineColumns()
    ensures Split(HeaderLine(), ',') == Header
    ensures '\n' !in HeaderLine()
  {
    forall i | 0 <= i < |Header| ensures ',' !in Header[i] && '\n' !in Header[i] {
    }
    SplitJoin(Header, ',');
    JoinAvoids(Header, ',', '\n');
  }

  /** A stringified value, a comma and a readable rest read back as the value followed by the rest's values. */
  lemma ParseFieldsCons(v: Value, tail: string, rest: seq<Value>)
    requires ParseFields(tail) == Some(rest)
    ensures ParseFields(Stringify(v) + ([','] + tail)) == Some([v] + rest)
  {
    StringifyRoundTrip(v, [','] + tail);
    assert ([','] + tail)[1..] == tail;
  }

  /** Reading a comma-joined run of stringified values gives back the values; a quoted comma does not split a field. */
  lemma {:induction false} ParseFieldsJoin(vs: seq<Value>)
    requires |vs| >= 1
    ensures ParseFields(Join(StringifyAll(vs), ',')) == Some(vs)
    decreases |vs|
  {
    var w := StringifyAll(vs);
    if |vs| == 1 {
      StringifyRoundTrip(vs[0], []);
      assert Stringify(vs[0]) + [] == Stringify(vs[0]);
      assert Join(w, ',') == Stringify(vs[0]);
      assert [vs[0]] == vs;
    } else {
      assert w == [Stringify(vs[0])] + StringifyAll(vs[1..]);
      assert w[1..] == StringifyAll(vs[1..]);
      var tail := Join(w[1..], ',');
      ParseFieldsJoin(vs[1..]);
      assert Join(w, ',') == Stringify(vs[0]) + ([','] + tail);
      ParseFieldsCons(vs[0], tail, vs[1..]);
      assert [vs[0]] + vs[1..] == vs;
    }
  }

  /** Every data line reads back as exactly seven values: the row's fields in header order, a missing or null one as `""`. */
  lemma RowReadBack(r: Record)
    ensures ParseFields(RowLine(r)) == Some(Cells(r))
    ensures |Cells(r)| == |Header| == 7
  {
    ParseFieldsJoin(Cells(r));
  }

  /** Field `i` of a line is the row's value under column `i`; a missing or null one is written as `""`. */
  lemma CellAt(r: Record, i: nat)
    requires i < |Header|
    ensures Header[i] in r && !r[Header[i]].Null? ==> Cells(r)[i] == r[Header[i]]
    ensures Header[i] !in r || r[Header[i]].Null? ==> Cells(r)[i] == Str("") && Stringify(Cells(r)[i]) == "\"\""
  {
    assert Escape("") == "";
  }

  /** A data line holds no line feed: JSON escaping turns one inside a field into a backslash and `n`. */
  lemma RowHasNoLineFeed(r: Record)
    ensures '\n' !in RowLine(r)
  {
    StringifyAllNoLineFeed(Cells(r));
    JoinAvoids(StringifyAll(Cells(r)), ',', '\n');
  }

  lemma {:induction false} StringifyAllNoLineFeed(vs: seq<Value>)
    ensures |StringifyAll(vs)| == |vs|
    ensures forall i :: 0 <= i < |vs| ==> '\n' !in StringifyAll(vs)[i]
    decreases |vs|
  {
    if vs != [] {
      StringifyHasNoControl(vs[0]);
      StringifyAllNoLineFeed(vs[1..]);
    }
  }

  /** One line per row, in input order, none with a line feed. */
  lemma {:induction false} RowLinesAt(rows: seq<Record>)
    ensures |RowLines(rows)| == |rows|
    ensures forall i :: 0 <= i < |rows| ==> RowLines(rows)[i] == RowLine(rows[i]) && '\n' !in RowLines(rows)[i]
    decreases |rows|
  {
    if rows != [] {
      RowHasNoLineFeed(rows[0]);
      RowLinesAt(rows[1..]);
    }
  }

  /** Splitting the report at line feeds gives the header line followed by one line per row, in input order. */
  lemma ExportLines(rows: seq<Record>)
    ensures Split(ExportCsv(rows), '\n') == [HeaderLine()] + RowLines(rows)
  {
    HeaderLineColumns();
    RowLinesAt(rows);
    var lines := [HeaderLine()] + RowLines(rows);
    forall i | 0 <= i < |lines| ensures '\n' !in lines[i] {
      if i > 0 {
        assert lines[i] == RowLines(rows)[i - 1];
      }
    }
    SplitJoin(lines, '\n');
  }

  /** The report has exactly one line more than there are rows; the first is the header, line `i + 1` reads back as row `i`'s seven fields. */
  lemma ExportShape(rows: seq<Record>)
    ensures |Split(ExportCsv(rows), '\n')| == 1 + |rows|
    ensures Split(ExportCsv(rows), '\n')[0] == HeaderLine()
    ensures forall i :: 0 <= i < |rows| ==> ParseFields(Split(ExportCsv(rows), '\n')[i + 1]) == Some(Cells(rows[i]))
  {
    ExportLines(rows);
    RowLinesAt(rows);
    var split := Split(ExportCsv(rows), '\n');
    forall i | 0 <= i < |rows| ensures ParseFields(split[i + 1]) == Some(Cells(rows[i])) {
      assert split[i + 1] == RowLines(rows)[i];
      RowReadBack(rows[i]);
    }
  }

  // ---------------------------------------------------------------------------
  // Exporting the stored suggestions

  /** A stored suggestion as a row: the id is a number, every other field a string. */
  function SuggestionRecord(s: Suggestion): Record {
    map[
      "id" := Num(s.id), "nama" := Str(s.nama), "kategori" := Str(s.kategori),
      "judul" := Str(s.judul), "isi" := Str(s.isi), "status" := Str(s.status), "tanggal" := Str(s.tanggal)
    ]
  }

  /** The values a suggestion's line holds, in column order. */
  function SuggestionFields(s: Suggestion): seq<Value> {
    [Num(s.id), Str(s.nama), Str(s.kategori), Str(s.judul), Str(s.isi), Str(s.status), Str(s.tanggal)]
  }

  function Records(items: seq<Suggestion>): seq<Record>
    decreases |items|
  {
    if items == [] then [] else [SuggestionRecord(items[0])] + Records(items[1..])
  }

  lemma {:induction false} RecordsAt(items: seq<Suggestion>)
    ensures |Records(items)| == |items|
    ensures forall i :: 0 <= i < |items| ==> Cells(Records(items)[i]) == SuggestionFields(items[i])
    decreases |items|
  {
    if items != [] {
      RecordsAt(items[1..]);
    }
  }

  /** `exportCSV` over the dashboard's list of suggestions. */
  function ExportSuggestions(items: seq<Suggestion>): string {
    ExportCsv(Records(items))
  }

  /** The report of `n` suggestions has `1 + n` lines: the header, then suggestion `i`'s id as a bare number and its six texts quoted, in column order. */
  lemma ExportSuggestionsShape(items: seq<Suggestion>)
    ensures |Split(ExportSuggestions(items), '\n')| == 1 + |items|
    ensures Split(ExportSuggestions(items), '\n')[0] == HeaderLine()
    ensures forall i :: 0 <= i < |items| ==>
      ParseFields(Split(ExportSuggestions(items), '\n')[i + 1]) == Some(SuggestionFields(items[i]))
  {
    ExportShape(Records(items));
    RecordsAt(items);
  }

  /** The id column is written without quotes. */
  lemma IdUnquoted(s: Suggestion)
    ensures StringifyAll(Cells(SuggestionRecord(s)))[0] == Decimal(s.id)
  {
  }
}
