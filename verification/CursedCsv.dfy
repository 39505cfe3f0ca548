/** The CSV printer (scripts/generate_cursed_csv.py) against a reader that follows section 2 of
    RFC 4180: records end in CRLF (optional after the last), fields are separated by commas, a
    quoted field may hold anything, and a double quote inside one is written twice.  The reader
    rejects a quote inside a bare field, anything but a separator after a closing quote, and a CR
    or LF that is not part of a CRLF outside quotes. */
module CursedCsv {
  import opened Sequences

  type Row = seq<string>

  // ---------------------------------------------------------------- the printer

  predicate NeedsQuote(field: string) {
    exists c :: c in field && (c == ',' || c == '"' || c == '\n' || c == '\r')
  }

  function EscapeChar(c: char): string {
    if c == '"' then "\"\"" else [c]
  }

  function Escape(field: string): string {
    if field == "" then ""
    else EscapeChar(field[0]) + Escape(field[1..])
  }

  function Quote(field: string): string {
    if NeedsQuote(field) then "\"" + Escape(field) + "\"" else field
  }

  function FormatRow(row: Row): string {
    if row == [] then ""
    else if |row| == 1 then Quote(row[0])
    else Quote(row[0]) + "," + FormatRow(row[1..])
  }

  /** `"\r\n".join(lines) + "\r\n"`. */
  function JoinLines(lines: seq<string>): string {
    if |lines| <= 1 then (if lines == [] then "" else lines[0]) + "\r\n"
    else lines[0] + "\r\n" + JoinLines(lines[1..])
  }

  function FormatAll(rows: seq<Row>): (lines: seq<string>)
    ensures |lines| == |rows|
  {
    seq(|rows|, i requires 0 <= i < |rows| => FormatRow(rows[i]))
  }

  /** Each line with its CRLF. */
  function Terminated(lines: seq<string>): string {
    if lines == [] then "" else lines[0] + "\r\n" + Terminated(lines[1..])
  }

  lemma {:induction false} JoinTerminates(lines: seq<string>)
    requires lines != []
    ensures JoinLines(lines) == Terminated(lines)
  {
    if |lines| == 1 {
      assert Terminated(lines[1..]) == "";
      assert lines[0] + "\r\n" + "" == lines[0] + "\r\n";
    } else {
      JoinTerminates(lines[1..]);
    }
  }

  ghost function Quotes(field: string): nat {
    Count(field, c => c == '"')
  }

  lemma {:induction false} CountCons(c: char, field: string)
    ensures Quotes([c] + field) == (if c == '"' then 1 else 0) + Quotes(field)
  {
    if field == "" {
      assert [c] + field == [c] && [c][..0] == "";
    } else {
      var n := |field| - 1;
      CountCons(c, field[..n]);
      assert ([c] + field)[..n + 1] == [c] + field[..n];
    }
  }

  lemma {:induction false} EscapeDoubles(field: string)
    ensures |Escape(field)| == |field| + Quotes(field)
  {
    if field != "" {
      EscapeDoubles(field[1..]);
      CountCons(field[0], field[1..]);
      assert [field[0]] + field[1..] == field;
    }
  }

  /** A field is printed as it is exactly when it holds no comma, quote, CR or LF; else it grows by the two
      quotes around it and one for each quote in it. */
  lemma QuotedIffSpecial(field: string)
    ensures Quote(field) == field <==> forall i :: 0 <= i < |field| ==> field[i] !in {',', '"', '\r', '\n'}
    ensures Quote(field) != field ==>
              |Quote(field)| == |field| + 2 + Quotes(field) && Quote(field)[0] == '"' == Quote(field)[|Quote(field)|-1]
  {
    EscapeDoubles(field);
    if NeedsQuote(field) {
      var c :| c in field && (c == ',' || c == '"' || c == '\n' || c == '\r');
      var i :| 0 <= i < |field| && field[i] == c;
      assert field[i] in {',', '"', '\r', '\n'} && |Quote(field)| > |field|;
    } else {
      assert forall i :: 0 <= i < |field| ==> field[i] in field;
    }
  }

  /** The text before it is encoded: the header line twice, then one line for each row. */
  method RenderCsv(header: Row, rows: seq<Row>) returns (text: string)
    ensures text == Terminated(FormatAll([header, header] + rows))
    ensures text == JoinLines(FormatAll([header, header] + rows))
  {
    JoinTerminates(FormatAll([header, header] + rows));
    var lines := [];
    lines := lines + [FormatRow(header)];
    lines := lines + [FormatRow(header)];
    for i := 0 to |rows|
      invariant lines == FormatAll([header, header] + rows[..i])
    {
      lines := lines + [FormatRow(rows[i])];
    }
    assert rows[..|rows|] == rows;
    text := JoinLines(lines);
  }

  // ---------------------------------------------------------------- the reader

  datatype Mode = FieldStart | Bare | Quoted | QuoteSeen

  /** Reads `text`, having read `rows`, the fields `row` of the current record, and the part
      `field` of the current field. */
  function Read(text: string, mode: Mode, field: string, row: Row, rows: seq<Row>): Option<seq<Row>>
    decreases |text|
  {
    if text == "" then
      if mode == Quoted then None
      else if mode == FieldStart && row == [] then Some(rows)
      else Some(rows + [row + [field]])
    else
      var c := text[0];
      if mode == Quoted then
        if c == '"' then Read(text[1..], QuoteSeen, field, row, rows)
        else Read(text[1..], Quoted, field + [c], row, rows)
      else if c == ',' then Read(text[1..], FieldStart, "", row + [field], rows)
      else if c == '\r' then
        if |text| > 1 && text[1] == '\n' then Read(text[2..], FieldStart, "", [], rows + [row + [field]]) else None
      else if c == '\n' then None
      else if c == '"' then
        if mode == FieldStart then Read(text[1..], Quoted, "", row, rows)
        else if mode == QuoteSeen then Read(text[1..], Quoted, field + [c], row, rows)
        else None
      else if mode == QuoteSeen then None
      else Read(text[1..], Bare, field + [c], row, rows)
  }

  function ReadCsv(text: string): Option<seq<Row>> {
    Read(text, FieldStart, "", [], [])
  }

  // ---------------------------------------------------------------- round trip

  /** Reading one escaped character inside quotes. */
  lemma ReadInside(c: char, rest: string, acc: string, row: Row, rows: seq<Row>)
    ensures Read(EscapeChar(c) + rest, Quoted, acc, row, rows) == Read(rest, Quoted, acc + [c], row, rows)
  {
    var text := EscapeChar(c) + rest;
    if c == '"' {
      assert text[1..] == "\"" + rest && text[1..][1..] == rest;
    } else {
      assert text[1..] == rest;
    }
  }

  lemma {:induction false} ReadEscaped(field: string, rest: string, acc: string, row: Row, rows: seq<Row>)
    ensures Read(Escape(field) + "\"" + rest, Quoted, acc, row, rows) == Read(rest, QuoteSeen, acc + field, row, rows)
  {
    var text := Escape(field) + "\"" + rest;
    if field == "" {
      assert text[1..] == rest && acc + field == acc;
    } else {
      var tail := Escape(field[1..]) + "\"" + rest;
      assert text == EscapeChar(field[0]) + tail;
      ReadInside(field[0], tail, acc, row, rows);
      ReadEscaped(field[1..], rest, acc + [field[0]], row, rows);
      assert acc + [field[0]] + field[1..] == acc + field;
    }
  }

  predicate IsPlain(field: string) {
    forall c :: c in field ==> c != ',' && c != '"' && c != '\n' && c != '\r'
  }

  lemma {:induction false} ReadPlain(field: string, rest: string, mode: Mode, acc: string, row: Row, rows: seq<Row>)
    requires IsPlain(field) && (mode == Bare || (mode == FieldStart && acc == ""))
    ensures Read(field + rest, mode, acc, row, rows)
         == Read(rest, if field == "" then mode else Bare, acc + field, row, rows)
    decreases |field|
  {
    if field == "" {
      assert field + rest == rest && acc + field == acc;
    } else {
      assert (field + rest)[1..] == field[1..] + rest;
      assert field[0] in field && forall c :: c in field[1..] ==> c in field;
      ReadPlain(field[1..], rest, Bare, acc + [field[0]], row, rows);
      assert acc + [field[0]] + field[1..] == acc + field;
    }
  }

  /** Where the reader stands after a printed field. */
  function ModeAfter(field: string): (mode: Mode)
    ensures mode != Quoted
  {
    if NeedsQuote(field) then QuoteSeen else if field == "" then FieldStart else Bare
  }

  lemma ReadOpening(rest: string, row: Row, rows: seq<Row>)
    ensures Read("\"" + rest, FieldStart, "", row, rows) == Read(rest, Quoted, "", row, rows)
  {
    assert ("\"" + rest)[1..] == rest;
  }

  /** Reading a printed field leaves the reader holding that field, before a separator. */
  lemma ReadField(field: string, rest: string, row: Row, rows: seq<Row>)
    ensures Read(Quote(field) + rest, FieldStart, "", row, rows) == Read(rest, ModeAfter(field), field, row, rows)
  {
    assert "" + field == field;
    if NeedsQuote(field) {
      var inner := Escape(field) + "\"" + rest;
      assert Quote(field) + rest == "\"" + inner;
      ReadOpening(inner, row, rows);
      ReadEscaped(field, rest, "", row, rows);
    } else {
      ReadPlain(field, rest, FieldStart, "", row, rows);
    }
  }

  /** A row without fields prints as the empty line, which is also one empty field. */
  function AsRead(row: Row): Row {
    if row == [] then [""] else row
  }

  function AllAsRead(rows: seq<Row>): (r: seq<Row>)
    ensures |r| == |rows| && forall i :: 0 <= i < |r| ==> r[i] == AsRead(rows[i])
  {
    seq(|rows|, i requires 0 <= i < |rows| => AsRead(rows[i]))
  }

  lemma {:induction false} ReadRow(fields: Row, rest: string, row: Row, rows: seq<Row>)
    ensures Read(FormatRow(fields) + "\r\n" + rest, FieldStart, "", row, rows)
         == Read(rest, FieldStart, "", [], rows + [row + AsRead(fields)])
    decreases |fields|
  {
    if |fields| <= 1 {
      var field := AsRead(fields)[0];
      var text := Quote(field) + ("\r\n" + rest);
      assert FormatRow(fields) + "\r\n" + rest == text;
      ReadField(field, "\r\n" + rest, row, rows);
      assert ("\r\n" + rest)[2..] == rest;
      assert AsRead(fields) == [field];
    } else {
      var tail := "," + (FormatRow(fields[1..]) + "\r\n" + rest);
      assert FormatRow(fields) + "\r\n" + rest == Quote(fields[0]) + tail;
      ReadField(fields[0], tail, row, rows);
      assert tail[1..] == FormatRow(fields[1..]) + "\r\n" + rest;
      ReadRow(fields[1..], rest, row + [fields[0]], rows);
      assert row + [fields[0]] + fields[1..] == row + fields;
    }
  }

  function Joined(rows: seq<Row>): string {
    if rows == [] then "" else JoinLines(FormatAll(rows))
  }

  lemma JoinedStep(rows: seq<Row>)
    requires rows != []
    ensures Joined(rows) == FormatRow(rows[0]) + "\r\n" + Joined(rows[1..])
  {
    var lines := FormatAll(rows);
    if |rows| == 1 {
      assert lines[0] + "\r\n" + "" == JoinLines(lines);
    } else {
      assert lines[1..] == FormatAll(rows[1..]);
    }
  }

  lemma ReadFirst(rows: seq<Row>, before: seq<Row>)
    requires rows != []
    ensures Read(Joined(rows), FieldStart, "", [], before)
            == Read(Joined(rows[1..]), FieldStart, "", [], before + [AsRead(rows[0])])
  {
    JoinedStep(rows);
    assert [] + AsRead(rows[0]) == AsRead(rows[0]);
    ReadRow(rows[0], Joined(rows[1..]), [], before);
  }

  lemma AsReadCons(rows: seq<Row>, before: seq<Row>)
    requires rows != []
    ensures before + [AsRead(rows[0])] + AllAsRead(rows[1..]) == before + AllAsRead(rows)
  {
  }

  lemma {:induction false} ReadRows(rows: seq<Row>, before: seq<Row>)
    ensures Read(Joined(rows), FieldStart, "", [], before) == Some(before + AllAsRead(rows))
    decreases |rows|
  {
    if rows == [] {
      assert before + AllAsRead(rows) == before;
    } else {
      ReadFirst(rows, before);
      ReadRows(rows[1..], before + [AsRead(rows[0])]);
      AsReadCons(rows, before);
    }
  }

  lemma ReadAll(rows: seq<Row>)
    requires rows != []
    ensures ReadCsv(JoinLines(FormatAll(rows))) == Some(AllAsRead(rows))
  {
    ReadRows(rows, []);
    assert [] + AllAsRead(rows) == AllAsRead(rows);
  }

  lemma UnchangedIffNoneEmpty(rows: seq<Row>)
    ensures AllAsRead(rows) == rows <==> forall i :: 0 <= i < |rows| ==> rows[i] != []
  {
    if AllAsRead(rows) == rows {
      forall i | 0 <= i < |rows| ensures rows[i] != [] {
        assert AllAsRead(rows)[i] == AsRead(rows[i]);
      }
    }
  }

  /** The rendered text is always well formed, and reads back as the header twice and then the
      rows, exactly when no row is without fields. */
  lemma RoundTrip(header: Row, rows: seq<Row>)
    ensures ReadCsv(JoinLines(FormatAll([header, header] + rows))).Some?
    ensures ReadCsv(JoinLines(FormatAll([header, header] + rows))) == Some([header, header] + rows)
       <==> header != [] && forall i :: 0 <= i < |rows| ==> rows[i] != []
  {
    var all := [header, header] + rows;
    ReadAll(all);
    UnchangedIffNoneEmpty(all);
    NoneEmptyConcat([header, header], rows);
  }

  lemma NoneEmptyConcat(a: seq<Row>, b: seq<Row>)
    ensures (forall i :: 0 <= i < |a + b| ==> (a + b)[i] != [])
       <==> (forall i :: 0 <= i < |a| ==> a[i] != []) && (forall i :: 0 <= i < |b| ==> b[i] != [])
  {
    if forall i :: 0 <= i < |a + b| ==> (a + b)[i] != [] {
      forall i | 0 <= i < |a| ensures a[i] != [] {
        assert (a + b)[i] == a[i];
      }
      forall i | 0 <= i < |b| ensures b[i] != [] {
        assert (a + b)[|a| + i] == b[i];
      }
    }
  }

  /** No two tables of non-empty rows print the same. */
  lemma PrintedTablesDiffer(header: Row, rows: seq<Row>, header': Row, rows': seq<Row>)
    requires header != [] && header' != []
    requires forall i :: 0 <= i < |rows| ==> rows[i] != []
    requires forall i :: 0 <= i < |rows'| ==> rows'[i] != []
    requires JoinLines(FormatAll([header, header] + rows)) == JoinLines(FormatAll([header', header'] + rows'))
    ensures header == header' && rows == rows'
  {
    RoundTrip(header, rows);
    RoundTrip(header', rows');
    var a, b := [header, header] + rows, [header', header'] + rows';
    assert a[0] == b[0] && a[2..] == b[2..];
  }

  // ---------------------------------------------------------------- what the reader takes and what it rejects

  lemma {:induction false} ReadRowsThen(rows: seq<Row>, rest: string, before: seq<Row>)
    ensures Read(Joined(rows) + rest, FieldStart, "", [], before)
         == Read(rest, FieldStart, "", [], before + AllAsRead(rows))
    decreases |rows|
  {
    if rows == [] {
      assert Joined(rows) + rest == rest && before + AllAsRead(rows) == before;
    } else {
      var tail := Joined(rows[1..]) + rest;
      JoinedStep(rows);
      assert Joined(rows) + rest == FormatRow(rows[0]) + "\r\n" + tail;
      assert [] + AsRead(rows[0]) == AsRead(rows[0]);
      ReadRow(rows[0], tail, [], before);
      ReadRowsThen(rows[1..], rest, before + [AsRead(rows[0])]);
      AsReadCons(rows, before);
    }
  }

  lemma ReadFieldLast(field: string, row: Row, rows: seq<Row>)
    requires row != [] || field != ""
    ensures Read(Quote(field), FieldStart, "", row, rows) == Some(rows + [row + [field]])
  {
    assert Quote(field) + "" == Quote(field);
    ReadField(field, "", row, rows);
  }

  lemma ReadThenComma(field: string, rest: string, row: Row, rows: seq<Row>)
    ensures Read(Quote(field) + "," + rest, FieldStart, "", row, rows)
         == Read(rest, FieldStart, "", row + [field], rows)
  {
    assert Quote(field) + "," + rest == Quote(field) + ("," + rest) && ("," + rest)[1..] == rest;
    ReadField(field, "," + rest, row, rows);
  }

  lemma {:induction false} ReadRowLast(fields: Row, row: Row, rows: seq<Row>)
    requires fields != [] && (row != [] || fields != [""])
    ensures Read(FormatRow(fields), FieldStart, "", row, rows) == Some(rows + [row + fields])
    decreases |fields|
  {
    if |fields| == 1 {
      assert fields == [fields[0]];
      ReadFieldLast(fields[0], row, rows);
    } else {
      ReadThenComma(fields[0], FormatRow(fields[1..]), row, rows);
      ReadRowLast(fields[1..], row + [fields[0]], rows);
      assert row + [fields[0]] + fields[1..] == row + fields;
    }
  }

  /** The CRLF after the last record may be left out, unless that record is no more than an empty field. */
  lemma LastBreakIsOptional(rows: seq<Row>, last: Row)
    requires last != [] && last != [""]
    ensures ReadCsv(Joined(rows) + FormatRow(last)) == ReadCsv(Joined(rows) + FormatRow(last) + "\r\n")
    ensures ReadCsv(Joined(rows) + FormatRow(last)) == Some(AllAsRead(rows) + [last])
  {
    var line := FormatRow(last);
    assert Joined(rows) + line + "\r\n" == Joined(rows) + (line + "\r\n" + "");
    ReadRowsThen(rows, line, []);
    ReadRowsThen(rows, line + "\r\n" + "", []);
    assert [] + AllAsRead(rows) == AllAsRead(rows) && [] + last == last;
    ReadRowLast(last, [], AllAsRead(rows));
    ReadRow(last, "", [], AllAsRead(rows));
  }

  lemma {:induction false} ReadUnclosed(field: string, acc: string, row: Row, rows: seq<Row>)
    ensures Read(Escape(field), Quoted, acc, row, rows) == None
  {
    if field != "" {
      ReadInside(field[0], Escape(field[1..]), acc, row, rows);
      ReadUnclosed(field[1..], acc + [field[0]], row, rows);
    }
  }

  lemma ReadPlainThen(field: string, c: char, rest: string)
    requires IsPlain(field)
    ensures ReadCsv(field + [c] + rest) == Read([c] + rest, if field == "" then FieldStart else Bare, field, [], [])
  {
    assert field + [c] + rest == field + ([c] + rest) && "" + field == field;
    ReadPlain(field, [c] + rest, FieldStart, "", [], []);
  }

  /** Outside quotes a CR without its LF, an LF without its CR, and a quote inside a field are no CSV. */
  lemma BrokenFieldIsRejected(field: string, rest: string)
    requires IsPlain(field)
    ensures !("\n" <= rest) ==> ReadCsv(field + "\r" + rest) == None
    ensures ReadCsv(field + "\n" + rest) == None
    ensures field != "" ==> ReadCsv(field + "\"" + rest) == None
  {
    ReadPlainThen(field, '\r', rest);
    ReadPlainThen(field, '\n', rest);
    ReadPlainThen(field, '"', rest);
    assert ("\r" + rest)[1..] == rest;
  }

  /** A quoted field that is never closed is no CSV, and neither is one with anything but a separator after
      its closing quote. */
  lemma BrokenQuoteIsRejected(field: string, c: char, rest: string)
    ensures ReadCsv("\"" + Escape(field)) == None
    ensures c !in {',', '"', '\r'} ==> ReadCsv("\"" + Escape(field) + "\"" + [c] + rest) == None
  {
    ReadOpening(Escape(field), [], []);
    ReadUnclosed(field, "", [], []);
    var inner := Escape(field) + "\"" + ([c] + rest);
    assert "\"" + Escape(field) + "\"" + [c] + rest == "\"" + inner;
    ReadOpening(inner, [], []);
    ReadEscaped(field, [c] + rest, "", [], []);
  }
}
