/**
 The reader of `mariadb --batch` output (`parse_tsv` in panel/agent/src/services/database.rs):
 one line a record, fields separated by tabs, nothing quoted.
 */
module Tsv {
  import opened Text
  import opened Lines
  import opened Csv

  /** `split('\t')`. */
  function TabSplit(l: string): seq<string>
    decreases |l|
  {
    var i := FirstChar(l, '\t');
    if i == |l| then [l] else [l[..i]] + TabSplit(l[i + 1..])
  }

  function TabJoin(fields: Record): string
    requires fields != []
  {
    if |fields| == 1 then fields[0] else fields[0] + "\t" + TabJoin(fields[1..])
  }

  function SplitAll(lines: seq<string>): seq<Record> {
    if lines == [] then [] else [TabSplit(lines[0])] + SplitAll(lines[1..])
  }

  predicate NotEmpty(l: string) { l != "" }

  /** The first line is the header; without one there is no table. Empty lines are no rows. */
  function ParseTsv(output: string): Table {
    var lines := Split(output);
    if lines == [] || lines[0] == "" then Table([], [])
    else Table(TabSplit(lines[0]), SplitAll(Keep(lines[1..], NotEmpty)))
  }

  // ---------------------------------------------------------------- round trip

  /** Fields that batch output can carry: no tab, no line end, and no "\r" at the end of the line. */
  ghost predicate IsBatchRecord(r: Record) {
    && r != [] && (forall i | 0 <= i < |r| :: '\t' !in r[i] && '\n' !in r[i])
    && !EndsInCr(r[|r| - 1])
  }

  ghost predicate AreBatchRecords(records: seq<Record>) {
    forall i | 0 <= i < |records| :: IsBatchRecord(records[i])
  }

  function PrintLines(records: seq<Record>): seq<string>
    requires forall i | 0 <= i < |records| :: records[i] != []
  {
    if records == [] then [] else [TabJoin(records[0])] + PrintLines(records[1..])
  }

  lemma {:induction false} TabRoundTrip(fields: Record)
    requires fields != [] && forall i | 0 <= i < |fields| :: '\t' !in fields[i]
    ensures TabSplit(TabJoin(fields)) == fields
    decreases |fields|
  {
    var l := TabJoin(fields);
    if |fields| == 1 {
      NoSuchChar(l, '\t');
      assert l[..|l|] == l && fields == [l];
    } else {
      var tail := TabJoin(fields[1..]);
      assert l == fields[0] + ['\t'] + tail;
      FirstCharAfter(fields[0], '\t', tail);
      assert l[..|fields[0]|] == fields[0] && l[|fields[0]| + 1..] == tail;
      TabRoundTrip(fields[1..]);
    }
  }

  lemma {:induction false} TabLine(fields: Record)
    requires IsBatchRecord(fields)
    ensures IsLine(TabJoin(fields)) && !EndsInCr(TabJoin(fields))
    ensures TabJoin(fields) == "" <==> fields == [""]
    decreases |fields|
  {
    if |fields| == 1 {
      assert fields == [fields[0]];
    } else {
      assert fields[1..][|fields| - 2] == fields[|fields| - 1];
      TabLine(fields[1..]);
      var l, tail := TabJoin(fields), TabJoin(fields[1..]);
      assert l == fields[0] + "\t" + tail;
      assert l[|l| - 1] == if tail == "" then '\t' else tail[|tail| - 1];
    }
  }

  lemma {:induction false} PrintedLines(records: seq<Record>)
    requires AreBatchRecords(records)
    ensures AreLines(PrintLines(records)) && NoCr(PrintLines(records)) && |PrintLines(records)| == |records|
    decreases |records|
  {
    hide IsBatchRecord, IsLine, EndsInCr, TabJoin;
    if records != [] {
      TabLine(records[0]);
      PrintedLines(records[1..]);
    }
  }

  /** The rows that are more than one empty field. */
  function Visible(records: seq<Record>): seq<Record> {
    if records == [] then [] else (if records[0] == [""] then [] else [records[0]]) + Visible(records[1..])
  }

  lemma {:induction false} RowsReadBack(records: seq<Record>)
    requires AreBatchRecords(records)
    ensures SplitAll(Keep(PrintLines(records), NotEmpty)) == Visible(records)
    decreases |records|
  {
    if records != [] {
      var r := records[0];
      assert IsBatchRecord(r);
      TabLine(r);
      TabRoundTrip(r);
      hide IsBatchRecord, TabSplit, TabJoin;
      RowsReadBack(records[1..]);
      var kept := Keep(PrintLines(records[1..]), NotEmpty);
      assert PrintLines(records)[1..] == PrintLines(records[1..]);
      assert ([TabJoin(r)] + kept)[0] == TabJoin(r) && ([TabJoin(r)] + kept)[1..] == kept && [] + kept == kept;
    }
  }

  lemma {:induction false} VisibleAll(records: seq<Record>)
    ensures |Visible(records)| <= |records|
    ensures Visible(records) == records <==> [""] !in records
    decreases |records|
  {
    if records != [] {
      VisibleAll(records[1..]);
      assert records == [records[0]] + records[1..];
    }
  }

  /** Header and rows are read back as they were printed, exactly if none of them is one empty field. */
  lemma BatchRoundTrip(header: Record, rows: seq<Record>)
    requires AreBatchRecords([header] + rows)
    ensures ParseTsv(Written(PrintLines([header] + rows))) == Table(header, rows) <==> header != [""] && [""] !in rows
    ensures header != [""] ==> ParseTsv(Written(PrintLines([header] + rows))) == Table(header, Visible(rows))
  {
    hide Split, TabJoin, TabSplit;
    var records := [header] + rows;
    assert forall i | 0 <= i < |records| :: IsBatchRecord(records[i]) && records[i] != [];
    hide IsBatchRecord;
    var lines := PrintLines(records);
    assert records[0] == header && records[1..] == rows;
    PrintedLines(records);
    SplitWritten(lines);
    DropCrsNothing(lines);
    assert lines[0] == TabJoin(header) && lines[1..] == PrintLines(rows);
    HeaderReadBack(header);
    RowsReadBack(rows);
    VisibleAll(rows);
  }

  lemma HeaderReadBack(header: Record)
    requires IsBatchRecord(header)
    ensures TabSplit(TabJoin(header)) == header && (TabJoin(header) == "" <==> header == [""]) && header != []
  {
    TabRoundTrip(header);
    TabLine(header);
  }
}
