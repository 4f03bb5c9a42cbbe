/**
 The reader of `psql --csv` output (`parse_csv` in panel/agent/src/services/database.rs) and
 its inverse, a printer after section 2 of RFC 4180 that may quote more than it must.
 */
module Csv {
  import opened Text

  type Record = seq<string>

  datatype Table = Table(columns: Record, rows: seq<Record>)

  // ---------------------------------------------------------------- the reader

  /** What the loop has read so far. */
  datatype State = State(records: seq<Record>, record: Record, field: string, inQuotes: bool)

  const START := State([], [], "", false)

  /** The field under construction ends here. */
  function EndField(st: State): State {
    st.(record := st.record + [st.field], field := "")
  }

  function EndRecord(st: State): State {
    State(st.records + [st.record + [st.field]], [], "", st.inQuotes)
  }

  function Push(st: State, c: char): State {
    st.(field := st.field + [c])
  }

  /** One character outside quotes. */
  function Outside(st: State, c: char): State {
    if c == '"' then st.(inQuotes := true)
    else if c == ',' then EndField(st)
    else if c == '\n' then EndRecord(st)
    else if c == '\r' then st
    else Push(st, c)
  }

  /** The loop, from any state on. */
  function Read(s: string, st: State): State
    decreases |s|
  {
    if s == "" then st
    else if !st.inQuotes then Read(s[1..], Outside(st, s[0]))
    else if s[0] != '"' then Read(s[1..], Push(st, s[0]))
    else if |s| > 1 && s[1] == '"' then Read(s[2..], Push(st, '"'))
    else Read(s[1..], st.(inQuotes := false))
  }

  /** "Last field/record": a last line without a line end counts unless it is empty. */
  function Finish(st: State): seq<Record> {
    if st.field == "" && st.record == [] then st.records
    else st.records + [st.record + [st.field]]
  }

  const TAGS := ["INSERT", "UPDATE", "DELETE", "CREATE", "ALTER", "DROP", "TRUNCATE", "GRANT", "REVOKE"]

  /** One record with one field that starts like a command tag. */
  predicate IsCommandTag(records: seq<Record>) {
    |records| == 1 && |records[0]| == 1 && exists tag | tag in TAGS :: StartsWith(records[0][0], tag)
  }

  function ToTable(records: seq<Record>): Table {
    if records == [] || IsCommandTag(records) then Table([], []) else Table(records[0], records[1..])
  }

  function Parsed(s: string): Table {
    ToTable(Finish(Read(s, START)))
  }

  predicate AllEmpty(record: Record) {
    forall i | 0 <= i < |record| :: record[i] == ""
  }

  method ParseCsv(output: string) returns (table: Table)
    ensures table == Parsed(output)
  {
    var records, field, record, inQuotes := [], "", [], false;
    var i := 0;
    while i < |output|
      invariant 0 <= i <= |output|
      invariant Read(output[i..], State(records, record, field, inQuotes)) == Read(output, START)
    {
      var c := output[i];
      ghost var rest, before := output[i..], State(records, record, field, inQuotes);
      assert rest[1..] == output[i + 1..];
      i := i + 1;
      if inQuotes {
        if c == '"' {
          if i < |output| && output[i] == '"' {
            assert rest[2..] == output[i + 1..];
            i := i + 1;
            field := field + ['"'];
          } else {
            inQuotes := false;
          }
        } else {
          field := field + [c];
        }
      } else {
        match c {
          case '"' => inQuotes := true;
          case ',' =>
            record := record + [field];
            field := "";
          case '\n' =>
            record := record + [field];
            field := "";
            if record != [] {
              records := records + [record];
              record := [];
            }
          case '\r' =>
          case _ => field := field + [c];
        }
      }
    }
    if field != "" || record != [] {
      record := record + [field];
      assert record[|record| - 1] == field;
      if !AllEmpty(record) || |record| > 1 {
        records := records + [record];
      }
    }
    if records == [] {
      return Table([], []);
    }
    if IsCommandTag(records) {
      return Table([], []);
    }
    table := Table(records[0], records[1..]);
  }

  // ---------------------------------------------------------------- the printer

  /** A field and whether it is printed in quotes. */
  datatype PrintField = PrintField(text: string, quoted: bool)

  datatype PrintRecord = PrintRecord(fields: seq<PrintField>, crlf: bool)

  predicate IsSpecial(c: char) {
    c == ',' || c == '"' || c == '\r' || c == '\n'
  }

  /** Quotes where section 2 of RFC 4180 asks for them, and anywhere else one likes. */
  predicate WellQuoted(f: PrintField) {
    f.quoted || forall i | 0 <= i < |f.text| :: !IsSpecial(f.text[i])
  }

  function Doubled(text: string): string {
    if text == "" then "" else (if text[0] == '"' then "\"\"" else [text[0]]) + Doubled(text[1..])
  }

  function Print(f: PrintField): string {
    if f.quoted then "\"" + Doubled(f.text) + "\"" else f.text
  }

  function PrintFields(fields: seq<PrintField>): string
    requires fields != []
  {
    if |fields| == 1 then Print(fields[0]) else Print(fields[0]) + "," + PrintFields(fields[1..])
  }

  function LineEnd(r: PrintRecord): string {
    if r.crlf then "\r\n" else "\n"
  }

  function PrintTable(records: seq<PrintRecord>): string
    requires forall i | 0 <= i < |records| :: records[i].fields != []
  {
    if records == [] then "" else PrintFields(records[0].fields) + LineEnd(records[0]) + PrintTable(records[1..])
  }

  function Texts(fields: seq<PrintField>): Record {
    seq(|fields|, i requires 0 <= i < |fields| => fields[i].text)
  }

  function Records(records: seq<PrintRecord>): seq<Record> {
    seq(|records|, i requires 0 <= i < |records| => Texts(records[i].fields))
  }

  ghost predicate Printable(records: seq<PrintRecord>) {
    forall i | 0 <= i < |records| :: PrintableRecord(records[i])
  }

  ghost predicate PrintableRecord(r: PrintRecord) {
    r.fields != [] && forall j | 0 <= j < |r.fields| :: WellQuoted(r.fields[j])
  }

  // ---------------------------------------------------------------- round trip

  lemma {:induction false} ReadQuoted(text: string, rest: string, st: State)
    requires st.inQuotes && (rest == "" || rest[0] != '"')
    ensures Read(Doubled(text) + "\"" + rest, st) == Read(rest, st.(field := st.field + text, inQuotes := false))
    decreases |text|
  {
    var s := Doubled(text) + "\"" + rest;
    if text == "" {
      assert s == "\"" + rest && s[1..] == rest;
      assert st.field + text == st.field;
    } else {
      var tail := Doubled(text[1..]) + "\"" + rest;
      if text[0] == '"' {
        assert s == "\"\"" + tail && s[2..] == tail;
      } else {
        assert s == [text[0]] + tail && s[1..] == tail;
      }
      ReadQuoted(text[1..], rest, Push(st, text[0]));
      assert st.field + [text[0]] + text[1..] == st.field + text;
    }
  }

  lemma {:induction false} ReadPlain(text: string, rest: string, st: State)
    requires !st.inQuotes && forall i | 0 <= i < |text| :: !IsSpecial(text[i])
    ensures Read(text + rest, st) == Read(rest, st.(field := st.field + text))
    decreases |text|
  {
    if text == "" {
      assert text + rest == rest && st.field + text == st.field;
    } else {
      assert (text + rest)[1..] == text[1..] + rest;
      ReadPlain(text[1..], rest, Push(st, text[0]));
      assert st.field + [text[0]] + text[1..] == st.field + text;
    }
  }

  lemma ReadField(f: PrintField, rest: string, st: State)
    requires WellQuoted(f) && !st.inQuotes && st.field == "" && (rest == "" || rest[0] != '"')
    ensures Read(Print(f) + rest, st) == Read(rest, st.(field := f.text))
  {
    assert "" + f.text == f.text;
    if f.quoted {
      var s := Print(f) + rest;
      assert s[1..] == Doubled(f.text) + "\"" + rest;
      ReadQuoted(f.text, rest, st.(inQuotes := true));
    } else {
      ReadPlain(f.text, rest, st);
    }
  }

  /** The last field is still open. */
  function AfterFields(fields: seq<PrintField>, st: State): State
    requires fields != []
  {
    var n := |fields| - 1;
    st.(record := st.record + Texts(fields[..n]), field := fields[n].text)
  }

  lemma OneField(fields: seq<PrintField>, st: State)
    requires |fields| == 1
    ensures AfterFields(fields, st) == st.(field := fields[0].text)
  {
    assert st.record + Texts(fields[..0]) == st.record;
  }

  lemma AfterFieldsUnfold(fields: seq<PrintField>, st: State)
    requires |fields| > 1
    ensures AfterFields(fields, st) ==
              AfterFields(fields[1..], st.(record := st.record + [fields[0].text], field := ""))
  {
    var n := |fields| - 1;
    assert st.record + [fields[0].text] + Texts(fields[1..][..n - 1]) == st.record + Texts(fields[..n]);
  }

  lemma {:induction false} ReadFields(fields: seq<PrintField>, rest: string, st: State)
    requires fields != [] && forall j | 0 <= j < |fields| :: WellQuoted(fields[j])
    requires !st.inQuotes && st.field == "" && (rest == "" || rest[0] != '"')
    ensures Read(PrintFields(fields) + rest, st) == Read(rest, AfterFields(fields, st))
    decreases |fields|
  {
    hide Read, Print, AfterFields;
    var n := |fields| - 1;
    if n == 0 {
      ReadField(fields[0], rest, st);
      OneField(fields, st);
    } else {
      var tail := PrintFields(fields[1..]) + rest;
      assert PrintFields(fields) + rest == Print(fields[0]) + ("," + tail);
      ReadField(fields[0], "," + tail, st);
      var next := st.(record := st.record + [fields[0].text]);
      ReadComma(tail, st.(field := fields[0].text));
      ReadFields(fields[1..], rest, next);
      AfterFieldsUnfold(fields, st);
    }
  }

  lemma ReadComma(tail: string, st: State)
    requires !st.inQuotes
    ensures Read("," + tail, st) == Read(tail, st.(record := st.record + [st.field], field := ""))
  {
    assert ("," + tail)[1..] == tail;
  }

  lemma ReadLineEnd(r: PrintRecord, rest: string, st: State)
    requires !st.inQuotes
    ensures Read(LineEnd(r) + rest, st) == Read(rest, EndRecord(st))
  {
    if r.crlf {
      assert ("\r\n" + rest)[1..] == "\n" + rest;
    }
    assert ("\n" + rest)[1..] == rest;
  }

  lemma ReadRecord(r: PrintRecord, rest: string, done: seq<Record>)
    requires PrintableRecord(r)
    ensures Read(PrintFields(r.fields) + LineEnd(r) + rest, State(done, [], "", false))
         == Read(rest, State(done + [Texts(r.fields)], [], "", false))
  {
    var st, n := State(done, [], "", false), |r.fields| - 1;
    assert PrintFields(r.fields) + LineEnd(r) + rest == PrintFields(r.fields) + (LineEnd(r) + rest);
    ReadFields(r.fields, LineEnd(r) + rest, st);
    var last := AfterFields(r.fields, st);
    ReadLineEnd(r, rest, last);
    assert last.record + [last.field] == Texts(r.fields);
  }

  lemma {:induction false} ReadTable(records: seq<PrintRecord>, rest: string, done: seq<Record>)
    requires Printable(records)
    ensures Read(PrintTable(records) + rest, State(done, [], "", false))
         == Read(rest, State(done + Records(records), [], "", false))
    decreases |records|
  {
    if records == [] {
      assert PrintTable(records) + rest == rest && done + Records(records) == done;
    } else {
      var tail := PrintTable(records[1..]) + rest;
      assert PrintableRecord(records[0]);
      assert PrintTable(records) + rest == PrintFields(records[0].fields) + LineEnd(records[0]) + tail;
      ReadRecord(records[0], tail, done);
      ReadTable(records[1..], rest, done + [Texts(records[0].fields)]);
      assert done + [Texts(records[0].fields)] + Records(records[1..]) == done + Records(records);
    }
  }

  /**
   What is printed is read back as header and rows, for every non-empty list of non-empty
   records, except a lone record of one field that looks like a command tag.
   */
  lemma RoundTrip(records: seq<PrintRecord>)
    requires records != [] && Printable(records)
    ensures var r := Records(records);
            var tag := && |r| == 1 && |r[0]| == 1
                       && exists w | w in ["INSERT", "UPDATE", "DELETE", "CREATE", "ALTER", "DROP",
                                           "TRUNCATE", "GRANT", "REVOKE"] :: w <= r[0][0];
            && (Parsed(PrintTable(records)) == Table(r[0], r[1..]) <==> !tag)
            && (tag ==> Parsed(PrintTable(records)) == Table([], []))
  {
    ReadTable(records, "", []);
    assert PrintTable(records) + "" == PrintTable(records);
    assert [] + Records(records) == Records(records);
    assert PrintableRecord(records[0]);
    assert |Records(records)[0]| == |records[0].fields| > 0;
  }

  /** The line end of the last record may be missing, except after a record of one empty field. */
  lemma LastLineEndOptional(records: seq<PrintRecord>, last: PrintRecord)
    requires Printable(records) && PrintableRecord(last)
    ensures var s, all := PrintTable(records) + PrintFields(last.fields), Records(records) + [Texts(last.fields)];
            Finish(Read(s, START)) == all <==> Texts(last.fields) != [""]
  {
    var n := |last.fields| - 1;
    ReadTable(records, PrintFields(last.fields), []);
    assert [] + Records(records) == Records(records);
    var st := State(Records(records), [], "", false);
    ReadFields(last.fields, "", st);
    assert PrintFields(last.fields) + "" == PrintFields(last.fields);
    var end := AfterFields(last.fields, st);
    assert end.record + [end.field] == Texts(last.fields);
    assert n == 0 ==> Texts(last.fields) == [last.fields[0].text];
    if Texts(last.fields) == [""] {
      assert |Texts(last.fields)| == |last.fields|;
    }
  }

  // ---------------------------------------------------------------- the row limit

  const MAX_ROWS := 1000

  /** `rows.truncate(MAX_ROWS)`: the flag says exactly when rows were dropped. */
  method LimitRows(rows: seq<Record>) returns (kept: seq<Record>, truncated: bool)
    ensures kept <= rows && |kept| == if |rows| < 1000 then |rows| else 1000
    ensures truncated <==> kept != rows
  {
    truncated := |rows| > MAX_ROWS;
    kept := if truncated then rows[..MAX_ROWS] else rows;
  }
}
