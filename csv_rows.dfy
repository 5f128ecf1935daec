/**
 * The two string transformations around the table of rows: reading the
 * uploaded file's text into rows, and writing rows back as the body of the
 * downloaded CSV file.
 */
module Csv {
  import opened JsStrings

  /** One table row: the text to classify and its label ("" until classified). */
  datatype Row = Row(text: string, classification: string)

  /** row.split(",")[0]: the part of a line before its first comma, or the whole line. */
  function FirstField(line: string): (f: string)
    ensures f <= line && ',' !in f
    ensures |f| == |line| || line[|f|] == ','
  {
    Split(line, ',')[0]
  }

  /** A line made of a comma-free text, a comma and anything else has that text as first field. */
  lemma FirstFieldOf(text: string, rest: string)
    requires ',' !in text
    ensures FirstField(text + "," + rest) == text
  {
    var tail := "," + rest;
    assert text + "," + rest == text + tail;
    SplitAfterPiece(text, tail, ',');
    assert tail[0] == ',' && tail[1..] == rest;
    assert Split(tail, ',')[0] == [];
    assert text + [] == text;
  }

  /**
   * The rows read from a file: the text is trimmed and split on "\n", and
   * each line gives one row whose text is its first field and whose
   * classification is empty.
   */
  function ParseRows(csvData: string): (rows: seq<Row>)
    ensures |rows| == Count(Trim(csvData), '\n') + 1
    ensures forall i :: 0 <= i < |rows| ==>
      rows[i].classification == [] && ',' !in rows[i].text && '\n' !in rows[i].text
  {
    RowsOfLines(Split(Trim(csvData), '\n'))
  }

  /** The map over the lines: one row per line, holding the line's first field. */
  function RowsOfLines(lines: seq<string>): (rows: seq<Row>)
    ensures |rows| == |lines|
  {
    seq(|lines|, i requires 0 <= i < |lines| => Row(FirstField(lines[i]), ""))
  }

  /**
   * Row i comes from line i of the trimmed text: its text is that line up to
   * its first comma, and the lines joined back with "\n" are the trimmed text.
   */
  lemma ParseRowsLines(csvData: string)
    ensures var lines := Split(Trim(csvData), '\n');
      Join(lines, '\n') == Trim(csvData) && |ParseRows(csvData)| == |lines| &&
      forall i :: 0 <= i < |lines| ==>
        var t := ParseRows(csvData)[i].text;
        t <= lines[i] && (|t| == |lines[i]| || lines[i][|t|] == ',')
  {
    JoinSplit(Trim(csvData), '\n');
  }

  /** A file holding only whitespace gives a single row with empty text. */
  lemma ParseWhitespaceOnly(csvData: string)
    requires AllWhitespace(csvData)
    ensures ParseRows(csvData) == [Row("", "")]
  {
    TrimUnique(csvData, [], 0);
    assert Split([], '\n') == [[]];
  }

  /** One row as a CSV line: text, a comma, classification. */
  function RenderRow(r: Row): (line: string)
    ensures |line| == |r.text| + 1 + |r.classification|
    ensures line[|r.text|] == ','
    ensures '\n' !in r.text && '\n' !in r.classification ==> '\n' !in line
  {
    r.text + "," + r.classification
  }

  /** The map over the rows: one line per row, in order. */
  function RenderRows(rows: seq<Row>): (lines: seq<string>)
    ensures |lines| == |rows|
    ensures NoNewlineInFields(rows) ==> forall k :: 0 <= k < |lines| ==> '\n' !in lines[k]
  {
    seq(|rows|, i requires 0 <= i < |rows| => RenderRow(rows[i]))
  }

  /** The body of the downloaded file: the rendered rows joined with "\n". */
  function SerializeRows(rows: seq<Row>): (body: string)
    ensures rows == [] ==> body == []
  {
    Join(RenderRows(rows), '\n')
  }

  predicate NoNewlineInFields(rows: seq<Row>) {
    forall i :: 0 <= i < |rows| ==> '\n' !in rows[i].text && '\n' !in rows[i].classification
  }

  /**
   * When no field holds a newline, the body of n >= 1 rows has n - 1
   * newlines and splitting it on "\n" gives back the rendered rows in order.
   */
  lemma SerializeLines(rows: seq<Row>)
    requires |rows| >= 1 && NoNewlineInFields(rows)
    ensures Split(SerializeRows(rows), '\n') == RenderRows(rows)
    ensures Count(SerializeRows(rows), '\n') == |rows| - 1
  {
    SplitJoin(RenderRows(rows), '\n');
  }

  /** The joined text starts with the first part and ends with the last. */
  lemma {:induction false} JoinEnds(parts: seq<string>, sep: char)
    requires |parts| >= 1
    ensures var s := Join(parts, sep); var last := parts[|parts| - 1];
      parts[0] <= s && |last| <= |s| && s[|s| - |last|..] == last
  {
    if |parts| > 1 {
      JoinEnds(parts[1..], sep);
      assert parts[1..][|parts[1..]| - 1] == parts[|parts| - 1];
    }
  }

  /** The body starts with the first rendered row and ends with the last. */
  lemma SerializeEnds(rows: seq<Row>)
    requires |rows| >= 1
    ensures var body := SerializeRows(rows);
      |body| > 0 &&
      body[0] == RenderRow(rows[0])[0] &&
      body[|body| - 1] == RenderRow(rows[|rows| - 1])[|RenderRow(rows[|rows| - 1])| - 1]
  {
    var lines := RenderRows(rows);
    JoinEnds(lines, '\n');
    var first, last := lines[0], lines[|lines| - 1];
    var body := Join(lines, '\n');
    assert |first| > 0 && |last| > 0;
    assert body[0] == first[0];
    assert body[|body| - |last|..][|last| - 1] == body[|body| - 1];
  }

  /** Joining after extending the last part by x extends the joined text by x. */
  lemma {:induction false} JoinExtendLast(parts: seq<string>, x: string, sep: char)
    requires |parts| >= 1
    ensures Join(parts[..|parts| - 1] + [parts[|parts| - 1] + x], sep) == Join(parts, sep) + x
  {
    var n := |parts|;
    var q := parts[..n - 1] + [parts[n - 1] + x];
    if n == 1 {
      assert q == [parts[0] + x];
    } else {
      var tail := parts[1..];
      JoinExtendLast(tail, x, sep);
      assert q[0] == parts[0];
      assert q[1..] == tail[..n - 2] + [tail[n - 2] + x];
      assert parts[0] + [sep] + (Join(tail, sep) + x) == parts[0] + [sep] + Join(tail, sep) + x;
    }
  }

  /** The rows with the trailing whitespace of the last classification removed. */
  function TrimLastClassification(rows: seq<Row>): (trimmed: seq<Row>)
    requires |rows| >= 1
    ensures |trimmed| == |rows| && trimmed[..|rows| - 1] == rows[..|rows| - 1]
    ensures var c := rows[|rows| - 1].classification;
      trimmed[|rows| - 1] == Row(rows[|rows| - 1].text, c[..TrimEndIndex(c, |c|)])
  {
    var last := rows[|rows| - 1];
    var c := last.classification;
    rows[..|rows| - 1] + [Row(last.text, c[..TrimEndIndex(c, |c|)])]
  }

  /**
   * A rendered line gives its row back: the first field is the text, and
   * what follows the comma after it is the classification.
   */
  lemma RenderRowReadsBack(r: Row)
    requires ',' !in r.text
    ensures var line := RenderRow(r); var f := FirstField(line);
      f == r.text && line[|f| + 1..] == r.classification
  {
    FirstFieldOf(r.text, r.classification);
  }

  /** Extending a row's classification by x extends its line by x. */
  lemma RenderRowExtend(text: string, c: string, x: string)
    ensures RenderRow(Row(text, c + x)) == RenderRow(Row(text, c)) + x
  {
    assert text + "," + (c + x) == (text + "," + c) + x;
  }

  /** The body is the body of the rows with the last classification trimmed, then that trailing whitespace. */
  lemma SerializeSplitsOffTail(rows: seq<Row>)
    requires |rows| >= 1
    ensures var c := rows[|rows| - 1].classification;
      SerializeRows(rows) == SerializeRows(TrimLastClassification(rows)) + c[TrimEndIndex(c, |c|)..]
  {
    var n := |rows|;
    var last := rows[n - 1];
    var c := last.classification;
    var j := TrimEndIndex(c, |c|);
    var x := c[j..];
    var rows' := TrimLastClassification(rows);
    var lines, lines' := RenderRows(rows), RenderRows(rows');
    assert lines[n - 1] == lines'[n - 1] + x by {
      assert c == c[..j] + x;
      RenderRowExtend(last.text, c[..j], x);
    }
    assert lines[..n - 1] == lines'[..n - 1] by {
      forall k | 0 <= k < n - 1 ensures lines[k] == lines'[k] {
        assert rows'[k] == rows'[..n - 1][k] == rows[..n - 1][k] == rows[k];
      }
    }
    assert lines == lines[..n - 1] + [lines[n - 1]];
    JoinExtendLast(lines', x, '\n');
  }

  /** The body of the rows with the last classification trimmed neither starts nor ends with whitespace. */
  lemma TrimmedBodyEnds(rows: seq<Row>)
    requires |rows| >= 1
    requires rows[0].text == [] || !IsWhitespace(rows[0].text[0])
    ensures var body := SerializeRows(TrimLastClassification(rows));
      |body| > 0 && !IsWhitespace(body[0]) && !IsWhitespace(body[|body| - 1])
  {
    var n := |rows|;
    var rows' := TrimLastClassification(rows);
    SerializeEnds(rows');
    var r0, rn := rows'[0], rows'[n - 1];
    assert r0.text == rows[0].text;
    assert RenderRow(r0)[0] == (if r0.text == [] then ',' else r0.text[0]);
    var c := rows[n - 1].classification;
    var c' := rn.classification;
    assert c' == c[..TrimEndIndex(c, |c|)];
    assert RenderRow(rn)[|RenderRow(rn)| - 1] == (if c' == [] then ',' else c'[|c'| - 1]);
  }

  /**
   * When the first text does not start with whitespace, trimming the body
   * only removes the trailing whitespace of the last classification: the
   * last row's comma stops it.
   */
  lemma SerializeTrimmed(rows: seq<Row>)
    requires |rows| >= 1
    requires rows[0].text == [] || !IsWhitespace(rows[0].text[0])
    ensures Trim(SerializeRows(rows)) == SerializeRows(TrimLastClassification(rows))
  {
    var c := rows[|rows| - 1].classification;
    var j := TrimEndIndex(c, |c|);
    var body, body' := SerializeRows(rows), SerializeRows(TrimLastClassification(rows));
    SerializeSplitsOffTail(rows);
    TrimmedBodyEnds(rows);
    assert WhitespaceBetween(body, |body'|, |body|) by {
      forall k | |body'| <= k < |body| ensures IsWhitespace(body[k]) {
        assert body[k] == c[j + k - |body'|];
      }
    }
    assert body' == body[0..|body'|];
    TrimUnique(body, body', 0);
  }

  /** Rendered rows whose texts have no comma map back to their texts. */
  lemma RowsOfRendered(rows: seq<Row>)
    requires forall i :: 0 <= i < |rows| ==> ',' !in rows[i].text
    ensures RowsOfLines(RenderRows(rows)) == seq(|rows|, i requires 0 <= i < |rows| => Row(rows[i].text, ""))
  {
    forall i | 0 <= i < |rows| ensures FirstField(RenderRow(rows[i])) == rows[i].text {
      FirstFieldOf(rows[i].text, rows[i].classification);
    }
  }

  /** Trimming the last classification keeps every text and adds no newline. */
  lemma TrimLastClassificationKeeps(rows: seq<Row>)
    requires |rows| >= 1 && NoNewlineInFields(rows)
    ensures var rows' := TrimLastClassification(rows);
      NoNewlineInFields(rows') && forall i :: 0 <= i < |rows| ==> rows'[i].text == rows[i].text
  {
    var rows' := TrimLastClassification(rows);
    var n := |rows|;
    forall i | 0 <= i < n
      ensures rows'[i].text == rows[i].text && '\n' !in rows'[i].text && '\n' !in rows'[i].classification
    {
      if i < n - 1 {
        assert rows'[i] == rows'[..n - 1][i] == rows[..n - 1][i] == rows[i];
      } else {
        var c := rows[n - 1].classification;
        assert rows'[i].classification == c[..TrimEndIndex(c, |c|)];
      }
    }
  }

  /**
   * Downloading and uploading again gives back the rows' texts, with empty
   * classifications, provided no text holds a comma or newline, no
   * classification holds a newline, and the first text does not start with
   * whitespace (trim would remove it).
   */
  lemma ParseSerializeRoundTrip(rows: seq<Row>)
    requires |rows| >= 1 && NoNewlineInFields(rows)
    requires forall i :: 0 <= i < |rows| ==> ',' !in rows[i].text
    requires rows[0].text == [] || !IsWhitespace(rows[0].text[0])
    ensures ParseRows(SerializeRows(rows)) == seq(|rows|, i requires 0 <= i < |rows| => Row(rows[i].text, ""))
  {
    var rows' := TrimLastClassification(rows);
    var body := SerializeRows(rows);
    TrimLastClassificationKeeps(rows);
    SerializeTrimmed(rows);
    assert Trim(body) == SerializeRows(rows');
    SerializeLines(rows');
    assert Split(Trim(body), '\n') == RenderRows(rows');
    RowsOfRendered(rows');
    assert ParseRows(body) == seq(|rows'|, i requires 0 <= i < |rows'| => Row(rows'[i].text, ""));
  }
}
