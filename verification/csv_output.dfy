/**
 The CSV row `save_to_csv` writes for a parsed record (main.py): one entry per
 column in `csv_columns` order, the stored text for present columns and the
 placeholder `N/A` for absent ones.
 */
module CsvOutput {
  import opened Keys
  import opened Parser

  /** Placeholder written for a column the record does not hold. */
  const Missing: string := "N/A"

  /** `[data.get(col, 'N/A') for col in cols]`. */
  function RowOf(cols: seq<string>, data: map<string, string>): (row: seq<string>)
    ensures |row| == |cols|
    ensures forall i :: 0 <= i < |cols| && cols[i] in data ==> row[i] == data[cols[i]]
    ensures forall i :: 0 <= i < |cols| && cols[i] !in data ==> row[i] == Missing
  {
    if |cols| == 0 then []
    else [if cols[0] in data then data[cols[0]] else Missing] + RowOf(cols[1..], data)
  }

  /** The data row for a record: exactly seven entries, in column order. */
  function CsvRow(data: map<string, string>): (row: seq<string>)
    ensures |row| == 7
    ensures forall i :: 0 <= i < 7 ==> row[i] == (if Columns[i] in data then data[Columns[i]] else Missing)
  {
    RowOf(Columns, data)
  }

  /** Reading a row back: the columns whose entry is not the placeholder. */
  function RecordOf(cols: seq<string>, row: seq<string>): (data: map<string, string>)
    requires |row| == |cols|
    ensures forall k :: k in data ==> k in cols
  {
    if |cols| == 0 then map[]
    else
      var rest := RecordOf(cols[1..], row[1..]);
      if row[0] == Missing then rest else rest[cols[0] := row[0]]
  }

  /** No name occurs twice. */
  predicate NoDuplicates(cols: seq<string>) {
    forall i, j :: 0 <= i < j < |cols| ==> cols[i] != cols[j]
  }

  /** The columns have distinct names (their normal forms already differ). */
  lemma ColumnsHaveNoDuplicates()
    ensures NoDuplicates(Columns)
  {
    ColumnKeysDistinct();
  }

  /** Reading back a row gives the record restricted to the listed columns,
      less the entries whose text is the placeholder itself. */
  lemma {:induction false} RecordOfRowOf(cols: seq<string>, data: map<string, string>)
    requires NoDuplicates(cols)
    ensures RecordOf(cols, RowOf(cols, data))
            == map k | k in data && k in cols && data[k] != Missing :: data[k]
  {
    if |cols| > 0 {
      var tail := cols[1..];
      assert RowOf(cols, data)[1..] == RowOf(tail, data);
      RecordOfRowOf(tail, data);
      KeepsIfNotMissing(cols, tail, data);
    }
  }

  /** Restricting a record to `cols` is restricting it to the tail, plus the
      head column when its row entry is not the placeholder. */
  lemma KeepsIfNotMissing(cols: seq<string>, tail: seq<string>, data: map<string, string>)
    requires |cols| > 0 && tail == cols[1..] && cols[0] !in tail
    ensures var e := if cols[0] in data then data[cols[0]] else Missing;
            var mt := map k | k in data && k in tail && data[k] != Missing :: data[k];
            var m := map k | k in data && k in cols && data[k] != Missing :: data[k];
            m == (if e == Missing then mt else mt[cols[0] := e])
  {
    assert forall k :: k in cols <==> k == cols[0] || k in tail;
  }

  /** A record holding only columns, none of whose values is the placeholder,
      is recovered from its row: the row loses nothing. */
  lemma CsvRowRoundTrip(data: map<string, string>)
    requires forall k :: k in data ==> k in Columns && data[k] != Missing
    ensures RecordOf(Columns, CsvRow(data)) == data
  {
    ColumnsHaveNoDuplicates();
    RecordOfRowOf(Columns, data);
  }

  /** A column whose stored text is literally `N/A` writes the same row as a
      column that was never found. */
  lemma PlaceholderIsAmbiguous(data: map<string, string>, col: string)
    requires col in data && data[col] == Missing
    ensures CsvRow(data) == CsvRow(data - {col})
  {
  }

  /** A parsed record none of whose values is the placeholder survives the
      trip through its CSV row. */
  lemma ParsedRowRoundTrip(lines: seq<string>)
    requires forall k :: k in Parse(lines).data ==> Parse(lines).data[k] != Missing
    ensures RecordOf(Columns, CsvRow(Parse(lines).data)) == Parse(lines).data
  {
    CsvRowRoundTrip(Parse(lines).data);
  }
}
