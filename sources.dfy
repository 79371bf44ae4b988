/** The CSV source of `src/sources.rs`: the first line of a file's contents,
    split on the separator, names the fields; every later line, split the
    same way, is a row. The file read itself is not modelled: a source
    carries the contents it would read. */
module Sources {
  import opened Results
  import opened Splitting

  type Row = seq<string>

  datatype Records = Records(field_names: seq<string>, data: seq<Row>)

  /** The one way `records` fails ("No header row in CSV"). */
  datatype SourceError = NoHeaderRow

  /** A CSV source: what `read_to_string` would return for its file, and
      the separator. */
  datatype CsvSource = CsvSource(contents: string, separator: string)

  /** Each line split on `separator`. */
  function SplitRows(lines: seq<string>, separator: string): (rows: seq<Row>)
    ensures |rows| == |lines|
    ensures forall k | 0 <= k < |lines| :: rows[k] == Split(lines[k], separator)
  {
    seq(|lines|, k requires 0 <= k < |lines| => Split(lines[k], separator))
  }

  /** What `records` returns for a source. */
  function CsvRecords(source: CsvSource): (r: Result<Records, SourceError>)
    ensures r.Err? <==> source.contents == []
    ensures r.Err? ==> r.error == NoHeaderRow
    ensures r.Ok? ==> r.value.field_names == Split(Lines(source.contents)[0], source.separator)
    ensures r.Ok? ==> |r.value.data| == |Lines(source.contents)| - 1
    ensures r.Ok? ==> forall k | 0 <= k < |r.value.data| ::
      r.value.data[k] == Split(Lines(source.contents)[k + 1], source.separator)
  {
    var lines := Lines(source.contents);
    if lines == [] then Err(NoHeaderRow)
    else Ok(Records(Split(lines[0], source.separator), SplitRows(lines[1..], source.separator)))
  }

  /** Rust's `Lines` iterator over a string: the text not yet consumed. */
  class LineCursor {
    var rest: string

    constructor (text: string)
      ensures rest == text
    {
      rest := text;
    }

    /** `next()`: the next line, if any text is left, and consume it. */
    method Next() returns (line: Option<string>)
      modifies this
      ensures old(rest) == [] ==> line == None && rest == old(rest)
      ensures old(rest) != [] ==> line == Some(NextLine(old(rest)).0) && rest == NextLine(old(rest)).1
      ensures Lines(old(rest)) == (if line.Some? then [line.value] else []) + Lines(rest)
    {
      if rest == [] {
        line := None;
      } else {
        var (first, after) := NextLine(rest);
        line := Some(first);
        rest := after;
      }
    }
  }

  /** `CsvSource::records`: take the header from the line iterator, then
      split every line it has left. */
  method ReadRecords(source: CsvSource) returns (r: Result<Records, SourceError>)
    ensures r == CsvRecords(source)
  {
    var rows := new LineCursor(source.contents);
    var header := rows.Next();
    match header
    case None =>
      r := Err(NoHeaderRow);
    case Some(line) =>
      var fieldNames := Split(line, source.separator);
      var data := SplitRows(Lines(rows.rest), source.separator);
      r := Ok(Records(fieldNames, data));
  }

  /** Joining the header, or any row, with the separator gives back its line. */
  lemma RecordsRejoin(source: CsvSource)
    requires source.contents != []
    ensures var lines, rec := Lines(source.contents), CsvRecords(source).value;
      && Join(rec.field_names, source.separator) == lines[0]
      && forall k | 0 <= k < |rec.data| :: Join(rec.data[k], source.separator) == lines[k + 1]
  {
    var lines, rec := Lines(source.contents), CsvRecords(source).value;
    JoinSplit(lines[0], source.separator);
    forall k | 0 <= k < |rec.data| ensures Join(rec.data[k], source.separator) == lines[k + 1] {
      JoinSplit(lines[k + 1], source.separator);
    }
  }

  /** With a non-empty separator, no field contains the separator, and a
      blank line is the single empty field. */
  lemma RecordsFields(source: CsvSource)
    requires source.contents != [] && source.separator != []
    ensures var lines, rec := Lines(source.contents), CsvRecords(source).value;
      && (forall f | f in rec.field_names :: !Contains(f, source.separator))
      && (forall k, f | 0 <= k < |rec.data| && f in rec.data[k] :: !Contains(f, source.separator))
      && (lines[0] == [] ==> rec.field_names == [""])
      && (forall k | 0 <= k < |rec.data| && lines[k + 1] == [] :: rec.data[k] == [""])
  {
    var lines, rec := Lines(source.contents), CsvRecords(source).value;
    SplitPiecesAvoidSeparator(lines[0], source.separator);
    forall k | 0 <= k < |rec.data|
      ensures forall f | f in rec.data[k] :: !Contains(f, source.separator)
    {
      SplitPiecesAvoidSeparator(lines[k + 1], source.separator);
    }
  }

  /** The text of `lines`, each ended by "\r\n". */
  function Terminated(lines: seq<string>): string
  {
    if lines == [] then [] else lines[0] + "\r\n" + Terminated(lines[1..])
  }

  /** CSV text for a header and rows: fields joined by `separator`, every
      line ended by "\r\n". */
  function Render(header: Row, rows: seq<Row>, separator: char): string
  {
    Terminated([Join(header, [separator])] + JoinRows(rows, separator))
  }

  function JoinRows(rows: seq<Row>, separator: char): (lines: seq<string>)
    ensures |lines| == |rows|
    ensures forall k | 0 <= k < |rows| :: lines[k] == Join(rows[k], [separator])
  {
    seq(|rows|, k requires 0 <= k < |rows| => Join(rows[k], [separator]))
  }

  /** A field usable in rendered text: no separator and no newline. */
  predicate PlainField(f: string, separator: char)
  {
    separator !in f && '\n' !in f
  }

  /** Reading rendered text gives back the header and the rows, as long as
      no field holds the separator or a newline and no row is empty. */
  lemma {:induction false} RecordsOfRender(header: Row, rows: seq<Row>, separator: char)
    requires separator != '\n'
    requires header != [] && forall k | 0 <= k < |rows| :: rows[k] != []
    requires forall f | f in header :: PlainField(f, separator)
    requires forall k | 0 <= k < |rows| :: forall f | f in rows[k] :: PlainField(f, separator)
    ensures CsvRecords(CsvSource(Render(header, rows, separator), [separator])) == Ok(Records(header, rows))
  {
    var lines := [Join(header, [separator])] + JoinRows(rows, separator);
    JoinAvoidsNewline(header, separator);
    forall k | 0 <= k < |lines| ensures '\n' !in lines[k] {
      if k > 0 {
        assert forall f | f in rows[k - 1] :: '\n' !in f;
        JoinAvoidsNewline(rows[k - 1], separator);
      }
    }
    LinesOfTerminated(lines);
    SplitJoin(header, separator);
    assert lines[1..] == JoinRows(rows, separator);
    forall k | 0 <= k < |rows| ensures Split(lines[k + 1], [separator]) == rows[k] {
      assert forall f | f in rows[k] :: separator !in f;
      SplitJoin(rows[k], separator);
    }
    var rec := CsvRecords(CsvSource(Render(header, rows, separator), [separator]));
    assert Lines(Render(header, rows, separator)) == lines;
    assert rec.Ok? && rec.value.field_names == header;
    assert rec.value.data == SplitRows(lines[1..], [separator]);
    assert rec.value.data == rows;
  }

  lemma {:induction false} LinesOfTerminated(lines: seq<string>)
    requires forall k | 0 <= k < |lines| :: '\n' !in lines[k]
    ensures Lines(Terminated(lines)) == lines
    decreases |lines|
  {
    if lines != [] {
      LinesOfTerminated(lines[1..]);
      LinesOfCrLf(lines[0], Terminated(lines[1..]));
    }
  }

  lemma {:induction false} JoinAvoidsNewline(fields: Row, separator: char)
    requires separator != '\n'
    requires forall f | f in fields :: '\n' !in f
    ensures '\n' !in Join(fields, [separator])
    decreases |fields|
  {
    if |fields| > 1 {
      JoinAvoidsNewline(fields[1..], separator);
      assert fields[0] in fields;
    }
  }
  /** A header and one row with Windows line endings: the carriage returns
      end up in no field. */
  lemma RecordsOfSmallFile()
    ensures CsvRecords(CsvSource("Name,Age\r\nRex,3\r\n", ",")) == Ok(Records(["Name", "Age"], [["Rex", "3"]]))
  {
    var contents := "Name,Age\r\nRex,3\r\n";
    var header, rows := ["Name", "Age"], [["Rex", "3"]];
    assert Render(header, rows, ',') == contents by {
      assert Join(header, ",") == "Name,Age";
      assert JoinRows(rows, ',') == ["Rex,3"] by { assert Join(rows[0], ",") == "Rex,3"; }
      var lines := ["Name,Age", "Rex,3"];
      assert lines[1..] == ["Rex,3"];
      assert Terminated(lines) == contents;
    }
    RecordsOfRender(header, rows, ',');
  }
}
