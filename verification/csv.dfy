/** The CSV text `convertTsTranslationsToCsv` writes for the flattened records: a
    `Path,Value` header, one `path,value` row per record joined by newlines, and the
    quoting of values by a subset of the rules of section 2 (rules 6 and 7) of RFC 4180:
    rule 6 also asks for quotes around line breaks, which are written as they are.
    The reading side (`Unquote`, `ParseRow`, `ParseCsv`) is not in the program; it is the
    partner against which the writing side is proved. */
module Csv {
  import opened Text
  import opened Translations

  datatype Option<T> = None | Some(value: T)

  /** The first line of every output file. */
  const Header: string := "Path,Value\n"

  // ---------------------------------------------------------------------------
  // Writing

  /** `value.replace(/"/g, '""')`: every double quote doubled, nothing else touched. The
      result is never shorter, and it is the value itself exactly when there is no quote. */
  function DoubleQuotes(value: string): (doubled: string)
    ensures |doubled| >= |value|
    ensures doubled == value <==> '"' !in value
    decreases |value|
  {
    if |value| == 0 then ""
    else
      var rest := DoubleQuotes(value[1..]);
      assert value == [value[0]] + value[1..];
      if value[0] == '"' then "\"\"" + rest
      else
        assert ([value[0]] + rest)[1..] == rest;
        [value[0]] + rest
  }

  /** `value.includes(",") || value.includes('"')` */
  predicate NeedsQuoting(value: string)
  {
    ',' in value || '"' in value
  }

  /** The value field of a row: a value without comma or double quote is written as it is;
      any other is written as an RFC 4180 escaped field, between double quotes, with inner
      quotes paired, and reads back as the value. Line breaks are never a reason to quote. */
  function FormatValue(value: string): (field: string)
    ensures field == value <==> !NeedsQuoting(value)
    ensures NeedsQuoting(value) ==>
      && |field| >= 2 && field[0] == '"' && field[|field| - 1] == '"'
      && PairedQuotes(field[1..|field| - 1])
      && CollapseQuotes(field[1..|field| - 1]) == value
    ensures forall c :: c != '"' ==> (c in field <==> c in value)
  {
    if NeedsQuoting(value) then
      DoubleQuotesFacts(value);
      var field := "\"" + DoubleQuotes(value) + "\"";
      assert field[1..|field| - 1] == DoubleQuotes(value);
      field
    else value
  }

  /** One data row: the path (never quoted), a comma and the formatted value. */
  function Row(record: Record): string
  {
    record.path + "," + FormatValue(record.value)
  }

  /** `flattenedData.map(...)`: one row per record, in order. */
  function Rows(records: seq<Record>): seq<string>
  {
    seq(|records|, i requires 0 <= i < |records| => Row(records[i]))
  }

  /** The file contents: the header alone when there are no records, otherwise the header
      followed by the rows joined with newlines, with no newline after the last row. */
  function CsvContent(records: seq<Record>): (content: string)
    ensures Header <= content
    ensures content == Header <==> |records| == 0
  {
    if |records| == 0 then Header
    else
      var rows := Rows(records);
      assert |Join(rows, '\n')| >= |rows[0]| >= 1;
      Header + Join(rows, '\n')
  }

  // ---------------------------------------------------------------------------
  // Reading

  /** Inside an RFC 4180 escaped field, every double quote is one of a pair. */
  predicate PairedQuotes(s: string)
    decreases |s|
  {
    if |s| == 0 then true
    else if s[0] == '"' then |s| >= 2 && s[1] == '"' && PairedQuotes(s[2..])
    else PairedQuotes(s[1..])
  }

  /** Each `""` read back as one `"`. */
  function CollapseQuotes(s: string): string
    decreases |s|
  {
    if |s| == 0 then ""
    else if |s| >= 2 && s[0] == '"' && s[1] == '"' then "\"" + CollapseQuotes(s[2..])
    else [s[0]] + CollapseQuotes(s[1..])
  }

  /** A field as an RFC 4180 reader takes it: between double quotes, its inner text with the
      quote pairs collapsed; otherwise the field itself. */
  function Unquote(field: string): string
  {
    if |field| >= 2 && field[0] == '"' && field[|field| - 1] == '"' then CollapseQuotes(field[1..|field| - 1])
    else field
  }

  /** A line read as a record: the text before the first comma is the path field, the rest
      is the value field; both are unquoted as RFC 4180 fields. */
  function ParseRow(line: string): Option<Record>
  {
    var cells := Split(line, ',');
    if |cells| < 2 then None else Some(Record(Unquote(cells[0]), Unquote(Join(cells[1..], ','))))
  }

  function ParseRows(lines: seq<string>): Option<seq<Record>>
  {
    if |lines| == 0 then Some([])
    else
      var head := ParseRow(lines[0]);
      var tail := ParseRows(lines[1..]);
      if head.Some? && tail.Some? then Some([head.value] + tail.value) else None
  }

  /** The records of a file: it must start with the header; the rest, when not empty, is
      newline-separated rows. */
  function ParseCsv(content: string): Option<seq<Record>>
  {
    if |content| < |Header| || content[..|Header|] != Header then None
    else
      var body := content[|Header|..];
      if body == "" then Some([]) else ParseRows(Split(body, '\n'))
  }

  // ---------------------------------------------------------------------------
  // Properties

  /** The values that get quoted are exactly those that, written bare, a reader would cut
      apart at a comma or would find a double quote in. */
  lemma NeedsQuotingIffMisread(value: string)
    ensures NeedsQuoting(value) <==> |Split(value, ',')| > 1 || '"' in value
  {
    SplitCuts(value, ',');
  }

  /** Quoting never adds a line break, so a row holds one exactly when its path or value
      does; the row opens with the path and a comma. */
  lemma RowLineBreaks(record: Record)
    ensures record.path + "," <= Row(record)
    ensures '\n' in Row(record) <==> '\n' in record.path || '\n' in record.value
  {
    var row := Row(record);
    assert row[..|record.path| + 1] == record.path + ",";
  }

  /** Doubling the quotes gives text whose quotes are paired, which collapses back to the
      original; only double quotes are added. */
  lemma {:induction false} DoubleQuotesFacts(value: string)
    ensures PairedQuotes(DoubleQuotes(value))
    ensures CollapseQuotes(DoubleQuotes(value)) == value
    ensures forall c :: c != '"' ==> (c in DoubleQuotes(value) <==> c in value)
    decreases |value|
  {
    if |value| > 0 {
      DoubleQuotesFacts(value[1..]);
      var rest := DoubleQuotes(value[1..]);
      if value[0] == '"' {
        assert ("\"\"" + rest)[2..] == rest;
      } else {
        assert ([value[0]] + rest)[1..] == rest;
      }
      assert value == [value[0]] + value[1..];
    }
  }

  /** Doubling works piece by piece, as a global `replace` does. */
  lemma {:induction false} DoubleQuotesAppend(a: string, b: string)
    ensures DoubleQuotes(a + b) == DoubleQuotes(a) + DoubleQuotes(b)
    decreases |a|
  {
    if |a| > 0 {
      assert (a + b)[0] == a[0] && (a + b)[1..] == a[1..] + b;
      DoubleQuotesAppend(a[1..], b);
    } else {
      assert a + b == b;
    }
  }

  /** A value with a comma but no double quote is wrapped in double quotes, unchanged inside. */
  lemma CommaValueIsWrapped(value: string)
    requires ',' in value && '"' !in value
    ensures FormatValue(value) == "\"" + value + "\""
  {
  }

  /** The other direction: paired-quote text is the doubling of its collapse, so doubling is
      a bijection between all strings and the insides of escaped fields. */
  lemma {:induction false} CollapseThenDouble(s: string)
    requires PairedQuotes(s)
    ensures DoubleQuotes(CollapseQuotes(s)) == s
    decreases |s|
  {
    if |s| > 0 {
      if s[0] == '"' {
        CollapseThenDouble(s[2..]);
        assert ("\"" + CollapseQuotes(s[2..]))[1..] == CollapseQuotes(s[2..]);
        assert s == "\"\"" + s[2..];
      } else {
        CollapseThenDouble(s[1..]);
        assert ([s[0]] + CollapseQuotes(s[1..]))[1..] == CollapseQuotes(s[1..]);
        assert s == [s[0]] + s[1..];
      }
    }
  }

  /** Removing the outer quotes and collapsing `""` recovers every value. */
  lemma UnquoteFormatValue(value: string)
    ensures Unquote(FormatValue(value)) == value
  {
  }

  /** A row reads back as its record whenever the path holds no comma and no quote. */
  lemma ParseRowOfRow(record: Record)
    requires ',' !in record.path && '"' !in record.path
    ensures ParseRow(Row(record)) == Some(record)
  {
    var field := FormatValue(record.value);
    var tail := [','] + field;
    assert Row(record) == record.path + tail;
    SplitGlue(record.path, tail, ',');
    assert tail[0] == ',' && tail[1..] == field;
    assert Split(tail, ',') == [""] + Split(field, ',');
    assert record.path + "" == record.path;
    var cells := Split(Row(record), ',');
    assert cells == [record.path] + Split(field, ',');
    assert cells[1..] == Split(field, ',');
    UnquoteFormatValue(record.value);
  }

  lemma {:induction false} ParseRowsOfRows(records: seq<Record>)
    requires forall i :: 0 <= i < |records| ==> ',' !in records[i].path && '"' !in records[i].path
    ensures ParseRows(Rows(records)) == Some(records)
    decreases |records|
  {
    if |records| > 0 {
      var rows := Rows(records);
      assert rows[0] == Row(records[0]);
      ParseRowOfRow(records[0]);
      assert rows[1..] == Rows(records[1..]);
      ParseRowsOfRows(records[1..]);
      ParseRowsCons(rows, records[0], records[1..]);
      assert records == [records[0]] + records[1..];
    }
  }

  /** Lines whose first line and remaining lines both read back read back as their join. */
  lemma ParseRowsCons(lines: seq<string>, first: Record, rest: seq<Record>)
    requires |lines| >= 1 && ParseRow(lines[0]) == Some(first) && ParseRows(lines[1..]) == Some(rest)
    ensures ParseRows(lines) == Some([first] + rest)
  {
  }

  /** Both branches of the assembly agree: the header alone is exactly the header followed by
      the (empty) join of no rows, so the output is always `Header + rows.join("\n")`. */
  lemma EmptyBranchAgrees(records: seq<Record>)
    ensures CsvContent(records) == Header + Join(Rows(records), '\n')
  {
  }

  /** The file reads back as the records, in order, one row per record, provided no path
      holds a comma, a double quote or a line break and no value holds a line break. The last
      condition is the reader's: `ParseCsv` cuts lines at every line break, even one inside a
      quoted field. */
  lemma CsvRoundTrip(records: seq<Record>)
    requires forall i :: 0 <= i < |records| ==>
      ',' !in records[i].path && '"' !in records[i].path && '\n' !in records[i].path && '\n' !in records[i].value
    ensures ParseCsv(CsvContent(records)) == Some(records)
  {
    var content := CsvContent(records);
    assert content[..|Header|] == Header;
    if |records| > 0 {
      var rows := Rows(records);
      var body := Join(rows, '\n');
      assert content[|Header|..] == body;
      forall i | 0 <= i < |rows| ensures '\n' !in rows[i] {
        assert rows[i] == Row(records[i]);
        RowLineBreaks(records[i]);
      }
      SplitJoin(rows, '\n');
      assert body != "";
      ParseRowsOfRows(records);
    }
  }

  /** No trailing newline: the file ends in a line break exactly when there are no records
      (the header's own) or the last value itself ends in one and is written unquoted. */
  lemma TrailingNewline(records: seq<Record>)
    ensures |CsvContent(records)| >= 1
    ensures CsvContent(records)[|CsvContent(records)| - 1] == '\n' <==>
      (|records| == 0 ||
       var v := records[|records| - 1].value;
       |v| >= 1 && v[|v| - 1] == '\n' && !NeedsQuoting(v))
  {
    if |records| == 0 {
      assert Header[|Header| - 1] == '\n';
    } else {
      ContentEndsLikeLastRow(records);
      RowEnding(records[|records| - 1]);
    }
  }

  /** With at least one record, the file's last character is the last row's: nothing is
      written after the join. */
  lemma ContentEndsLikeLastRow(records: seq<Record>)
    requires |records| >= 1
    ensures |CsvContent(records)| >= 1 && |Row(records[|records| - 1])| >= 1
    ensures var content := CsvContent(records);
      var last := Row(records[|records| - 1]);
      content[|content| - 1] == last[|last| - 1]
  {
    LastRowOfRows(records);
    AppendJoinLastChar(Header, Rows(records), '\n', CsvContent(records), Row(records[|records| - 1]));
  }

  /** With at least one record, the file is the header followed by the joined rows, the last
      of which is the last record's row. */
  lemma LastRowOfRows(records: seq<Record>)
    requires |records| >= 1
    ensures CsvContent(records) == Header + Join(Rows(records), '\n')
    ensures |Rows(records)| >= 1 && Rows(records)[|Rows(records)| - 1] == Row(records[|records| - 1])
    ensures |Row(records[|records| - 1])| >= 1
  {
  }

  /** Text ending in a join ends with the last part's last character. */
  lemma AppendJoinLastChar(h: string, parts: seq<string>, sep: char, c: string, last: string)
    requires |parts| >= 1 && parts[|parts| - 1] == last && |last| >= 1 && c == h + Join(parts, sep)
    ensures |c| >= 1 && c[|c| - 1] == last[|last| - 1]
  {
    JoinLastChar(parts, sep);
    var body := Join(parts, sep);
    assert c[|c| - 1] == body[|body| - 1];
  }

  /** The joined text ends with the last part's last character. */
  lemma JoinLastChar(parts: seq<string>, sep: char)
    requires |parts| >= 1 && |parts[|parts| - 1]| >= 1
    ensures |Join(parts, sep)| >= 1
    ensures Join(parts, sep)[|Join(parts, sep)| - 1] == parts[|parts| - 1][|parts[|parts| - 1]| - 1]
  {
    JoinEndsWithLast(parts, sep);
    var s := Join(parts, sep);
    var last := parts[|parts| - 1];
    assert s[|s| - |last|..][|last| - 1] == s[|s| - 1];
  }

  /** A row ends in a line break exactly when its value does and is written unquoted. */
  lemma RowEnding(record: Record)
    ensures |Row(record)| >= 1
    ensures Row(record)[|Row(record)| - 1] == '\n' <==>
      (|record.value| >= 1 && record.value[|record.value| - 1] == '\n' && !NeedsQuoting(record.value))
  {
    var field := FormatValue(record.value);
    var row := Row(record);
    assert row == (record.path + ",") + field;
    if |field| == 0 {
      assert row[|row| - 1] == ',';
    } else {
      assert row[|row| - 1] == field[|field| - 1];
    }
  }

  lemma {:induction false} JoinEndsWithLast(parts: seq<string>, sep: char)
    requires |parts| >= 1
    ensures |Join(parts, sep)| >= |parts[|parts| - 1]|
    ensures Join(parts, sep)[|Join(parts, sep)| - |parts[|parts| - 1]|..] == parts[|parts| - 1]
    decreases |parts|
  {
    if |parts| > 1 {
      JoinEndsWithLast(parts[1..], sep);
      var rest := Join(parts[1..], sep);
      var last := parts[|parts| - 1];
      assert parts[1..][|parts| - 2] == last;
      var whole := parts[0] + [sep] + rest;
      assert whole[|whole| - |last|..] == rest[|rest| - |last|..];
    }
  }
}
