/**
 The cron entries of the panel in root's crontab: the writer `sync_crons`, the reader
 `list_crons` and the remover `remove_cron` of panel/agent/src/routes/crons.rs, and the second
 reader `read_crontab_entries` of panel/agent/src/routes/iac.rs.
 */
module Crontab {
  import opened Wrappers
  import opened Text
  import opened Lines
  import opened CommandFilter

  const MARKER := "# arcpanel:"

  /** A request to write one entry; the `title` is the request's label, empty if it has none. */
  datatype Cron = Cron(id: string, command: string, schedule: string, title: string)

  datatype Error = InvalidSchedule | EmptyCommand | UnsafeCommand | WriteFailed

  datatype Result<T> = Ok(value: T) | Err(error: Error)

  // ---------------------------------------------------------------- validation

  predicate IsScheduleChar(c: char) {
    IsDigit(c) || c == '*' || c == '/' || c == '-' || c == ','
  }

  predicate IsField(f: string) {
    forall i | 0 <= i < |f| :: IsScheduleChar(f[i])
  }

  /** `is_valid_schedule`: five words of digits and the characters * / - and comma. */
  predicate IsValidSchedule(schedule: string) {
    |Words(schedule)| == 5 && forall i | 0 <= i < 5 :: IsField(Words(schedule)[i])
  }

  function Check(lower: string -> string, byteLen: string -> nat, c: Cron): Option<Error> {
    if !IsValidSchedule(c.schedule) then Some(InvalidSchedule)
    else if c.command == "" then Some(EmptyCommand)
    else if !IsSafeCronCommand(lower, byteLen, c.command) then Some(UnsafeCommand)
    else None
  }

  /** A field of a schedule, by its characters. */
  ghost predicate IsFieldSpelled(f: string) {
    f != "" && forall c | c in f :: c in "0123456789*/-,"
  }

  lemma FieldSpelled(f: string)
    ensures IsWord(f) && IsField(f) <==> IsFieldSpelled(f)
  {
    forall c: char ensures IsScheduleChar(c) <==> c in "0123456789*/-," {
      ScheduleChar(c);
    }
    assert forall i | 0 <= i < |f| :: f[i] in f;
  }

  lemma ScheduleChar(c: char)
    ensures IsScheduleChar(c) <==> c in "0123456789*/-,"
  {
    if IsDigit(c) {
      assert c == "0123456789*/-,"[c as int - '0' as int];
    }
  }

  /**
   Which entries pass: those whose schedule is five words of these characters, and whose
   command the filter takes; the schedule is judged first.
   */
  lemma CheckedExactly(lower: string -> string, byteLen: string -> nat, c: Cron)
    ensures var timed := exists fields: seq<string> ::
                           && |fields| == 5 && Parted(c.schedule, fields)
                           && forall f | f in fields :: IsFieldSpelled(f);
            && (Check(lower, byteLen, c) == Some(InvalidSchedule) <==> !timed)
            && (Check(lower, byteLen, c) == Some(EmptyCommand) <==> timed && c.command == "")
            && (Check(lower, byteLen, c) == Some(UnsafeCommand) <==>
                  timed && c.command != "" && !IsSafeCronCommand(lower, byteLen, c.command))
  {
    hide Words, Parted, IsField, IsFieldSpelled, IsWord, IsSafeCronCommand;
    var words := Words(c.schedule);
    WordsAreWords(c.schedule);
    WordsExactly(c.schedule, words);
    forall f ensures IsWord(f) && IsField(f) <==> IsFieldSpelled(f) {
      FieldSpelled(f);
    }
    forall fields: seq<string> |
      |fields| == 5 && Parted(c.schedule, fields) && forall f | f in fields :: IsFieldSpelled(f)
      ensures fields == words
    {
      assert forall i | 0 <= i < 5 :: fields[i] in fields;
      WordsExactly(c.schedule, fields);
    }
    if IsValidSchedule(c.schedule) {
      assert forall f | f in words :: IsFieldSpelled(f);
    } else if |words| == 5 && forall f | f in words :: IsFieldSpelled(f) {
      assert forall i | 0 <= i < 5 :: words[i] in words;
    }
  }

  // ---------------------------------------------------------------- writing

  predicate IsForeign(l: string) {
    !Contains(l, MARKER)
  }

  function EntryLine(c: Cron): string {
    c.schedule + " " + c.command + " " + MARKER + c.id + " " + c.title
  }

  function EntryLines(crons: seq<Cron>): seq<string> {
    if crons == [] then [] else [EntryLine(crons[0])] + EntryLines(crons[1..])
  }

  /** The marker to the letter: in the line of an entry, and in the lines that are not the panel's or go with an id. */
  lemma LinesSpelled(c: Cron, id: string, l: string)
    ensures EntryLine(c) == c.schedule + " " + c.command + " # arcpanel:" + c.id + " " + c.title
    ensures IsForeign(l) <==> !Embeds(l, "# arcpanel:")
    ensures Spares(id)(l) <==> !Embeds(l, "# arcpanel:" + id)
  {
    assert " " + MARKER == " # arcpanel:";
    assert EntryLine(c) == c.schedule + " " + c.command + (" " + MARKER) + c.id + " " + c.title;
    ContainsEmbeds(l, MARKER);
    ContainsEmbeds(l, MARKER + id);
  }

  /** The lines of a crontab that are not the panel's, in order. */
  function Foreign(table: string): seq<string> {
    Keep(Split(table), IsForeign)
  }

  function Synced(table: string, crons: seq<Cron>): string {
    Written(Foreign(table) + EntryLines(crons))
  }

  /** The lines `remove_cron` lets stay. */
  function Spares(id: string): string -> bool {
    l => !Contains(l, MARKER + id)
  }

  function RemovedFrom(table: string, id: string): string {
    Written(Keep(Split(table), Spares(id)))
  }

  // ---------------------------------------------------------------- reading

  datatype Entry = Entry(id: string, entry: string, title: string)

  /** The id ends at the first space; the title is what follows it. */
  function ParseAfter(entry: string, after: string): Entry {
    var space := FirstChar(after, ' ');
    if space == |after| then Entry(Trim(after), entry, "")
    else Entry(after[..space], entry, Trim(after[space + 1..]))
  }

  /** One line of `list_crons`. */
  function ParseLine(l: string): Entry
    requires Contains(l, MARKER)
  {
    var at := IndexOf(l, MARKER);
    ParseAfter(Trim(l[..at]), l[at + |MARKER|..])
  }

  function ListOf(lines: seq<string>): seq<Entry> {
    if lines == [] then []
    else (if IsForeign(lines[0]) then [] else [ParseLine(lines[0])]) + ListOf(lines[1..])
  }

  function ListCrons(table: string): seq<Entry> {
    ListOf(Split(table))
  }

  datatype Export = Export(id: string, schedule: string, command: string, title: Option<string>)

  /** One line of `read_crontab_entries`, which wants five schedule fields and a command, separated by single spaces. */
  function ExportLine(l: string): Option<Export>
    requires Contains(l, MARKER)
  {
    var e := ParseLine(l);
    var parts := SplitN(e.entry, ' ', 6);
    if |parts| < 6 then None
    else Some(Export(e.id, Spaced(parts[..5]), parts[5], if e.title == "" then None else Some(e.title)))
  }

  function ExportsOf(lines: seq<string>): seq<Export> {
    if lines == [] then []
    else
      (if !IsForeign(lines[0]) && ExportLine(lines[0]).Some? then [ExportLine(lines[0]).value] else [])
      + ExportsOf(lines[1..])
  }

  function ReadEntries(table: string): seq<Export> {
    ExportsOf(Split(table))
  }

  // ---------------------------------------------------------------- the crontab

  ghost predicate AllPass(lower: string -> string, byteLen: string -> nat, crons: seq<Cron>) {
    forall i | 0 <= i < |crons| :: Check(lower, byteLen, crons[i]).None?
  }

  /** `e` is what is wrong with the first entry that does not pass. */
  ghost predicate FirstFailure(lower: string -> string, byteLen: string -> nat, crons: seq<Cron>, e: Error) {
    exists i :: 0 <= i < |crons| && Check(lower, byteLen, crons[i]) == Some(e) && AllPass(lower, byteLen, crons[..i])
  }

  lemma NothingAdded(lower: string -> string, byteLen: string -> nat, foreign: seq<string>, crons: seq<Cron>)
    ensures foreign == foreign + EntryLines(crons[..0]) && AllPass(lower, byteLen, crons[..0])
  {
  }

  lemma OneMore(lower: string -> string, byteLen: string -> nat, foreign: seq<string>, crons: seq<Cron>, k: nat)
    requires k < |crons| && AllPass(lower, byteLen, crons[..k])
    ensures foreign + EntryLines(crons[..k]) + [EntryLine(crons[k])] == foreign + EntryLines(crons[..k + 1])
    ensures var bad := Check(lower, byteLen, crons[k]);
            && (bad.None? ==> AllPass(lower, byteLen, crons[..k + 1]))
            && (bad.Some? ==> !AllPass(lower, byteLen, crons) && FirstFailure(lower, byteLen, crons, bad.value))
  {
    hide Check, EntryLine;
    EntryLinesSnoc(crons, k);
  }

  /** "Add arcpanel crons": nothing is written before every entry has passed. */
  method AddEntries(lower: string -> string, byteLen: string -> nat, foreign: seq<string>, crons: seq<Cron>)
    returns (lines: seq<string>, bad: Option<Error>)
    ensures bad.None? <==> AllPass(lower, byteLen, crons)
    ensures bad.None? ==> lines == foreign + EntryLines(crons)
    ensures bad.Some? ==> FirstFailure(lower, byteLen, crons, bad.value)
  {
    hide EntryLine, Check, AllPass, FirstFailure;
    lines := foreign;
    var k := 0;
    NothingAdded(lower, byteLen, foreign, crons);
    while k < |crons|
      invariant 0 <= k <= |crons|
      invariant lines == foreign + EntryLines(crons[..k])
      invariant AllPass(lower, byteLen, crons[..k])
    {
      bad := Check(lower, byteLen, crons[k]);
      OneMore(lower, byteLen, foreign, crons, k);
      if bad.Some? {
        return;
      }
      lines := lines + [EntryLine(crons[k])];
      k := k + 1;
    }
    assert crons[..|crons|] == crons;
    bad := None;
  }

  class Crontab {
    var table: string

    constructor (table: string)
      ensures this.table == table
    {
      this.table := table;
    }

    /**
     `sync_crons`. `readable` and `writable` say whether the crontab program answers; an
     unreadable crontab counts as an empty one.
     */
    method SyncCrons(lower: string -> string, byteLen: string -> nat, crons: seq<Cron>, readable: bool, writable: bool)
      returns (r: Result<nat>)
      modifies this
      ensures r.Ok? <==> writable && AllPass(lower, byteLen, crons)
      ensures r.Ok? ==> table == Synced(if readable then old(table) else "", crons) && r.value == |crons|
      ensures !r.Ok? ==> table == old(table)
      ensures !AllPass(lower, byteLen, crons) ==> r.Err? && FirstFailure(lower, byteLen, crons, r.error)
    {
      hide AllPass, FirstFailure;
      var lines, bad := AddEntries(lower, byteLen, Keep(Split(if readable then table else ""), IsForeign), crons);
      if bad.Some? {
        return Err(bad.value);
      }
      if !writable {
        return Err(WriteFailed);
      }
      table := Join(lines) + "\n";
      r := Ok(|crons|);
    }

    method RemoveCron(id: string, readable: bool, writable: bool) returns (ok: bool)
      modifies this
      ensures ok == writable
      ensures table == if ok then RemovedFrom(if readable then old(table) else "", id) else old(table)
    {
      ok := writable;
      if ok {
        table := Join(Keep(Split(if readable then table else ""), Spares(id))) + "\n";
      }
    }
  }

  lemma {:induction false} EntryLinesSnoc(crons: seq<Cron>, k: nat)
    requires k < |crons|
    ensures EntryLines(crons[..k + 1]) == EntryLines(crons[..k]) + [EntryLine(crons[k])]
    decreases k
  {
    if k == 0 {
      assert crons[..1] == [crons[0]];
      assert EntryLines([]) == [];
    } else {
      assert crons[1..][..k] == crons[..k + 1][1..] && crons[1..][..k - 1] == crons[..k][1..];
      EntryLinesSnoc(crons[1..], k - 1);
    }
  }

  // ---------------------------------------------------------------- entries that can be recovered

  /** Five fields, one space between two of them. */
  ghost predicate SingleSpaced(schedule: string) {
    exists fields: seq<string> ::
      |fields| == 5 && schedule == Spaced(fields) && forall i | 0 <= i < 5 :: fields[i] != "" && IsField(fields[i])
  }

  /** Single-spaced schedules are among the valid ones. */
  lemma SingleSpacedIsValid(schedule: string)
    requires SingleSpaced(schedule)
    ensures IsValidSchedule(schedule)
  {
    var fields: seq<string> :| |fields| == 5 && schedule == Spaced(fields)
                               && forall i | 0 <= i < 5 :: fields[i] != "" && IsField(fields[i]);
    forall i | 0 <= i < |fields| ensures IsWord(fields[i]) {
      assert IsField(fields[i]);
    }
    WordsSpaced(fields);
  }

  ghost predicate Recoverable(c: Cron) {
    && SingleSpaced(c.schedule)
    && TrimEnd(c.command) != "" && '\n' !in c.command && !Contains(c.command, MARKER)
    && (forall i | 0 <= i < |c.id| :: !IsWhitespace(c.id[i]))
    && '\n' !in c.title
  }

  ghost predicate AllRecoverable(crons: seq<Cron>) {
    forall i | 0 <= i < |crons| :: Recoverable(crons[i])
  }

  // ---------------------------------------------------------------- where the marker is

  lemma MarkerHasOneHash(i: nat)
    requires 0 < i < |MARKER|
    ensures MARKER[i] != '#' && MARKER[0] == '#'
  {
  }

  lemma NotAcross(pre: string, post: string, j: nat)
    requires |pre| < j + |MARKER| && j < |pre|
    ensures !OccursAt(pre + MARKER + post, MARKER, j)
  {
    var s := pre + MARKER + post;
    MarkerHasOneHash(|pre| - j);
    assert s[|pre|] == MARKER[0];
    if j + |MARKER| <= |s| {
      assert s[j..j + |MARKER|][|pre| - j] == s[|pre|];
    }
  }

  lemma NotInside(pre: string, post: string, j: nat)
    requires |pre| < j < |pre| + |MARKER|
    ensures !OccursAt(pre + MARKER + post, MARKER, j)
  {
    var s := pre + MARKER + post;
    MarkerHasOneHash(j - |pre|);
    assert s[j] == MARKER[j - |pre|];
    if j + |MARKER| <= |s| {
      assert s[j..j + |MARKER|][0] == s[j];
    }
  }

  lemma NotBefore(pre: string, post: string, j: nat)
    requires !Contains(pre, MARKER) && j + |MARKER| <= |pre|
    ensures !OccursAt(pre + MARKER + post, MARKER, j)
  {
    assert (pre + MARKER + post)[j..j + |MARKER|] == pre[j..j + |MARKER|];
    assert !OccursAt(pre, MARKER, j);
  }

  lemma FirstMarker(pre: string, post: string)
    requires !Contains(pre, MARKER)
    ensures Contains(pre + MARKER + post, MARKER) && IndexOf(pre + MARKER + post, MARKER) == |pre|
  {
    var s := pre + MARKER + post;
    assert OccursAt(s, MARKER, |pre|);
    forall j: nat | j < |pre| ensures !OccursAt(s, MARKER, j) {
      if j + |MARKER| <= |pre| {
        NotBefore(pre, post, j);
      } else {
        NotAcross(pre, post, j);
      }
    }
  }

  lemma {:induction false} SpacedChars(fields: seq<string>, c: char)
    requires c in Spaced(fields) && forall i | 0 <= i < |fields| :: IsField(fields[i])
    ensures c == ' ' || IsScheduleChar(c)
    decreases |fields|
  {
    if |fields| == 1 {
      assert IsField(fields[0]);
    } else if |fields| > 1 {
      assert IsField(fields[0]);
      if c !in fields[0] && c != ' ' {
        SpacedChars(fields[1..], c);
      }
    }
  }

  lemma ScheduleChars(schedule: string, c: char)
    requires SingleSpaced(schedule) && c in schedule
    ensures c == ' ' || IsScheduleChar(c)
  {
    var fields: seq<string> :| |fields| == 5 && schedule == Spaced(fields)
                               && forall i | 0 <= i < 5 :: fields[i] != "" && IsField(fields[i]);
    SpacedChars(fields, c);
  }

  /** What stands before the marker in an entry. */
  function Before(c: Cron): string {
    c.schedule + " " + c.command + " "
  }

  function After(c: Cron): string {
    c.id + " " + c.title
  }

  lemma EntryLineParts(c: Cron)
    ensures EntryLine(c) == Before(c) + MARKER + After(c)
  {
  }

  lemma PlaceInCommand(head: string, command: string, j: nat)
    requires '#' !in head && OccursAt(head + command + " ", MARKER, j)
    ensures Contains(command, MARKER)
  {
    var b, m := head + command + " ", |MARKER|;
    var o := b[j..j + m];
    assert o[0] == b[j] && o[m - 1] == b[j + m - 1] && b[|b| - 1] == ' ';
    assert b[..|head|] == head && o[0] == '#';
    assert j >= |head| by { assert forall k | 0 <= k < |head| :: head[k] == b[k]; }
    assert command[j - |head|..j - |head| + m] == b[j..j + m];
    assert OccursAt(command, MARKER, j - |head|);
  }

  lemma NoMarkerBefore(c: Cron)
    requires Recoverable(c)
    ensures !Contains(Before(c), MARKER)
  {
    var head := c.schedule + " ";
    forall k | 0 <= k < |c.schedule| ensures c.schedule[k] != '#' {
      ScheduleChars(c.schedule, c.schedule[k]);
    }
    forall j: nat | j <= |Before(c)| ensures !OccursAt(Before(c), MARKER, j) {
      if OccursAt(Before(c), MARKER, j) {
        PlaceInCommand(head, c.command, j);
      }
    }
  }

  lemma ScheduleStart(schedule: string)
    requires SingleSpaced(schedule)
    ensures schedule != "" && !IsWhitespace(schedule[0])
  {
    var fields: seq<string> :| |fields| == 5 && schedule == Spaced(fields)
                               && forall i | 0 <= i < 5 :: fields[i] != "" && IsField(fields[i]);
    assert schedule[0] == fields[0][0] && IsScheduleChar(fields[0][0]) by { assert IsField(fields[0]); }
  }

  lemma TrimBefore(c: Cron)
    requires Recoverable(c)
    ensures Trim(Before(c)) == c.schedule + " " + TrimEnd(c.command)
  {
    var b := Before(c);
    ScheduleStart(c.schedule);
    assert b[0] == c.schedule[0] && TrimStart(b) == b;
    var head := c.schedule + " ";
    assert b == head + c.command + [' '];
    TrimEndSnoc(head + c.command, ' ');
    TrimEndConcat(head, c.command);
  }

  // ---------------------------------------------------------------- reading back

  function EntryOf(c: Cron): Entry {
    Entry(c.id, c.schedule + " " + TrimEnd(c.command), Trim(c.title))
  }

  function EntriesOf(crons: seq<Cron>): seq<Entry> {
    if crons == [] then [] else [EntryOf(crons[0])] + EntriesOf(crons[1..])
  }

  lemma ParseIdAndTitle(entry: string, id: string, title: string)
    requires ' ' !in id
    ensures ParseAfter(entry, id + " " + title) == Entry(id, entry, Trim(title))
  {
    var after := id + " " + title;
    assert after == id + [' '] + title;
    FirstCharAfter(id, ' ', title);
    assert after[..|id|] == id && after[|id| + 1..] == title;
  }

  lemma ParseAtMarker(pre: string, after: string)
    requires !Contains(pre, MARKER)
    ensures Contains(pre + MARKER + after, MARKER) && ParseLine(pre + MARKER + after) == ParseAfter(Trim(pre), after)
  {
    hide ParseAfter, Trim, Contains, IndexOf;
    FirstMarker(pre, after);
    var l := pre + MARKER + after;
    assert l[..|pre|] == pre && l[|pre| + |MARKER|..] == after;
  }

  lemma ParseParts(c: Cron, title: string)
    requires Recoverable(c)
    ensures var l := Before(c) + MARKER + (c.id + " " + title);
            Contains(l, MARKER) && ParseLine(l) == Entry(c.id, c.schedule + " " + TrimEnd(c.command), Trim(title))
  {
    NoMarkerBefore(c);
    TrimBefore(c);
    assert ' ' !in c.id;
    hide ParseAfter, ParseLine, Trim, TrimEnd, Contains, Before, Recoverable;
    ParseAtMarker(Before(c), c.id + " " + title);
    ParseIdAndTitle(Trim(Before(c)), c.id, title);
  }

  lemma DroppedCrInTitle(c: Cron)
    ensures DropCr(EntryLine(c)) == Before(c) + MARKER + (c.id + " " + DropCr(c.title))
    ensures Trim(DropCr(c.title)) == Trim(c.title)
  {
    EntryLineParts(c);
    if EndsInCr(c.title) {
      assert c.title == DropCr(c.title) + ['\r'];
      TrimSnoc(DropCr(c.title), '\r');
    }
  }

  lemma ParseEntryLine(c: Cron)
    requires Recoverable(c)
    ensures !IsForeign(DropCr(EntryLine(c))) && ParseLine(DropCr(EntryLine(c))) == EntryOf(c)
  {
    DroppedCrInTitle(c);
    ParseParts(c, DropCr(c.title));
  }

  lemma {:induction false} ListConcat(a: seq<string>, b: seq<string>)
    ensures ListOf(a + b) == ListOf(a) + ListOf(b)
    decreases |a|
  {
    hide ParseLine, IsForeign;
    if a == [] {
      assert a + b == b;
    } else {
      assert (a + b)[1..] == a[1..] + b;
      ListConcat(a[1..], b);
    }
  }

  lemma {:induction false} ListForeign(lines: seq<string>)
    requires AllSatisfy(lines, IsForeign)
    ensures ListOf(lines) == [] && ExportsOf(lines) == []
    decreases |lines|
  {
    if lines != [] {
      ListForeign(lines[1..]);
    }
  }

  lemma {:induction false} ListEntries(crons: seq<Cron>)
    requires AllRecoverable(crons)
    ensures ListOf(DropCrs(EntryLines(crons))) == EntriesOf(crons)
    decreases |crons|
  {
    hide ParseLine, IsForeign, EntryLine, Recoverable, EntryOf;
    if crons != [] {
      ParseEntryLine(crons[0]);
      ListEntries(crons[1..]);
      var lines := DropCrs(EntryLines(crons));
      assert lines[0] == DropCr(EntryLine(crons[0])) && lines[1..] == DropCrs(EntryLines(crons[1..]));
    }
  }

  lemma ForeignIgnoresCr()
    ensures IgnoresCr(IsForeign)
  {
    forall l: string ensures IsForeign(DropCr(l)) == IsForeign(l) {
      ContainsIgnoresCr(l, MARKER);
    }
  }

  lemma NotABreak(c: Cron)
    requires Recoverable(c)
    ensures IsLine(EntryLine(c))
  {
    if '\n' in c.schedule {
      ScheduleChars(c.schedule, '\n');
    }
  }

  lemma {:induction false} EntryLinesAreLines(crons: seq<Cron>)
    requires AllRecoverable(crons)
    ensures AreLines(EntryLines(crons))
    decreases |crons|
  {
    hide Recoverable, EntryLine, IsLine;
    if crons != [] {
      NotABreak(crons[0]);
      EntryLinesAreLines(crons[1..]);
    }
  }

  lemma ForeignAreLines(table: string)
    ensures AreForeign(Foreign(table))
  {
    SplitGivesLines(table);
    KeepSatisfies(Split(table), IsForeign);
  }

  /** Lines that are not the panel's. */
  ghost predicate AreForeign(fs: seq<string>) {
    AreLines(fs) && AllSatisfy(fs, IsForeign)
  }

  /** The lines of a crontab just written: the foreign ones and the entries, less one "\r" each. */
  lemma WrittenLines(fs: seq<string>, crons: seq<Cron>)
    requires AreForeign(fs) && AllRecoverable(crons)
    ensures Split(Written(fs + EntryLines(crons)))
         == if fs == [] && crons == [] then [""] else DropCrs(fs) + DropCrs(EntryLines(crons))
  {
    EntryLinesAreLines(crons);
    SplitWritten(fs + EntryLines(crons));
    DropCrsConcat(fs, EntryLines(crons));
    NoCrAlone();
    assert fs == [] && crons == [] ==> fs + EntryLines(crons) == [];
  }

  lemma ForeignDropped(fs: seq<string>)
    requires AreForeign(fs)
    ensures AreForeign(DropCrs(fs))
  {
    ForeignIgnoresCr();
    forall i | 0 <= i < |DropCrs(fs)| ensures IsForeign(DropCrs(fs)[i]) && IsLine(DropCrs(fs)[i]) {
      assert IsForeign(fs[i]) && IsLine(fs[i]);
    }
  }

  lemma EmptyLineIsForeign()
    ensures IsForeign("") && ListOf([""]) == [] && ExportsOf([""]) == []
  {
    assert forall i: nat | i <= 0 :: !OccursAt("", MARKER, i);
    assert IsForeign("");
  }

  lemma ListWritten(fs: seq<string>, crons: seq<Cron>)
    requires AreForeign(fs) && AllRecoverable(crons)
    ensures ListCrons(Written(fs + EntryLines(crons))) == EntriesOf(crons)
  {
    hide ListOf, EntriesOf, Written;
    WrittenLines(fs, crons);
    ForeignDropped(fs);
    ListForeign(DropCrs(fs));
    ListConcat(DropCrs(fs), DropCrs(EntryLines(crons)));
    ListEntries(crons);
    EmptyLineIsForeign();
    NoEntries();
  }

  /** `list_crons` gives back what `sync_crons` wrote, in order, whatever else the crontab holds. */
  lemma ListAfterSync(table: string, crons: seq<Cron>)
    requires AllRecoverable(crons)
    ensures ListCrons(Synced(table, crons)) == EntriesOf(crons)
  {
    ForeignAreLines(table);
    ListWritten(Foreign(table), crons);
  }

  lemma NoEntries()
    ensures EntriesOf([]) == [] && ExportsOfCrons([]) == []
  {
  }

  function ExportOf(c: Cron): Export {
    Export(c.id, c.schedule, TrimEnd(c.command), if Trim(c.title) == "" then None else Some(Trim(c.title)))
  }

  function ExportsOfCrons(crons: seq<Cron>): seq<Export> {
    if crons == [] then [] else [ExportOf(crons[0])] + ExportsOfCrons(crons[1..])
  }

  lemma SplitEntry(schedule: string, command: string)
    requires SingleSpaced(schedule)
    ensures var parts := SplitN(schedule + " " + command, ' ', 6);
            |parts| == 6 && Spaced(parts[..5]) == schedule && parts[5] == command
  {
    var fields: seq<string> :| |fields| == 5 && schedule == Spaced(fields)
                               && forall i | 0 <= i < 5 :: fields[i] != "" && IsField(fields[i]);
    hide SplitN, Spaced;
    forall i | 0 <= i < |fields| ensures ' ' !in fields[i] {
      assert IsField(fields[i]);
    }
    SplitNSpaced(fields, command);
    assert (fields + [command])[..5] == fields;
  }

  lemma ExportEntryLine(c: Cron)
    requires Recoverable(c)
    ensures !IsForeign(DropCr(EntryLine(c))) && ExportLine(DropCr(EntryLine(c))) == Some(ExportOf(c))
  {
    ParseEntryLine(c);
    SplitEntry(c.schedule, TrimEnd(c.command));
    hide ParseLine, SplitN, Spaced, Trim, TrimEnd, EntryLine, SingleSpaced;
  }

  lemma {:induction false} ExportsConcat(a: seq<string>, b: seq<string>)
    ensures ExportsOf(a + b) == ExportsOf(a) + ExportsOf(b)
    decreases |a|
  {
    hide ExportLine, IsForeign;
    if a == [] {
      assert a + b == b;
    } else {
      assert (a + b)[1..] == a[1..] + b;
      ExportsConcat(a[1..], b);
    }
  }

  lemma {:induction false} ExportEntries(crons: seq<Cron>)
    requires AllRecoverable(crons)
    ensures ExportsOf(DropCrs(EntryLines(crons))) == ExportsOfCrons(crons)
    decreases |crons|
  {
    hide ExportLine, IsForeign, EntryLine, Recoverable, ExportOf;
    if crons != [] {
      ExportEntryLine(crons[0]);
      ExportEntries(crons[1..]);
      var lines := DropCrs(EntryLines(crons));
      assert lines[0] == DropCr(EntryLine(crons[0])) && lines[1..] == DropCrs(EntryLines(crons[1..]));
    }
  }

  lemma ReadWritten(fs: seq<string>, crons: seq<Cron>)
    requires AreForeign(fs) && AllRecoverable(crons)
    ensures ReadEntries(Written(fs + EntryLines(crons))) == ExportsOfCrons(crons)
  {
    hide ExportsOf, ExportsOfCrons, Written;
    WrittenLines(fs, crons);
    ForeignDropped(fs);
    ListForeign(DropCrs(fs));
    ExportsConcat(DropCrs(fs), DropCrs(EntryLines(crons)));
    ExportEntries(crons);
    EmptyLineIsForeign();
    NoEntries();
  }

  /** The second reader, which also takes the schedule apart, recovers the same entries. */
  lemma ReadAfterSync(table: string, crons: seq<Cron>)
    requires AllRecoverable(crons)
    ensures ReadEntries(Synced(table, crons)) == ExportsOfCrons(crons)
  {
    ForeignAreLines(table);
    ReadWritten(Foreign(table), crons);
  }

  // ---------------------------------------------------------------- foreign lines and idempotence

  lemma {:induction false} EntriesAreNotForeign(crons: seq<Cron>)
    requires AllRecoverable(crons)
    ensures NoneSatisfies(DropCrs(EntryLines(crons)), IsForeign)
    decreases |crons|
  {
    hide IsForeign, EntryLine, Recoverable, ParseLine, EntryOf;
    if crons != [] {
      ParseEntryLine(crons[0]);
      EntriesAreNotForeign(crons[1..]);
      var lines := DropCrs(EntryLines(crons));
      assert lines[1..] == DropCrs(EntryLines(crons[1..]));
      forall i | 0 <= i < |lines| ensures !IsForeign(lines[i]) {
        if i > 0 {
          assert lines[i] == lines[1..][i - 1];
        }
      }
    }
  }

  /** Foreign lines keep their order, and their text up to one "\r" at the end. */
  lemma ForeignAfterSync(table: string, crons: seq<Cron>)
    requires AllRecoverable(crons)
    ensures Foreign(Synced(table, crons))
         == if Foreign(table) == [] && crons == [] then [""] else DropCrs(Foreign(table))
  {
    ForeignAreLines(table);
    WrittenLines(Foreign(table), crons);
    ForeignDropped(Foreign(table));
    EntriesAreNotForeign(crons);
    hide IsForeign, Written;
    KeepAll(DropCrs(Foreign(table)), IsForeign);
    KeepNone(DropCrs(EntryLines(crons)), IsForeign);
    KeepConcat(DropCrs(Foreign(table)), DropCrs(EntryLines(crons)), IsForeign);
    EmptyLineIsForeign();
    KeepAll([""], IsForeign);
  }

  /** Syncing the same entries again changes nothing, exactly if no foreign line ends in "\r". */
  lemma SyncIdempotent(table: string, crons: seq<Cron>)
    requires AllRecoverable(crons)
    ensures Synced(Synced(table, crons), crons) == Synced(table, crons) <==> NoCr(Foreign(table))
  {
    var ks := Foreign(table);
    ForeignAfterSync(table, crons);
    if ks == [] && crons == [] {
      assert [""] + EntryLines(crons) == [""] && ks + EntryLines(crons) == [];
    } else {
      DropCrsNothing(ks);
      if DropCrs(ks) != ks {
        ShorterAfterDrop(ks, EntryLines(crons));
      }
    }
  }

  // ---------------------------------------------------------------- removing

  lemma MarkerThere(pre: string, post: string, id: string)
    requires id <= post || Contains(post, MARKER + id)
    ensures Contains(pre + MARKER + post, MARKER + id)
  {
    var l, n := pre + MARKER + post, |pre|;
    if id <= post {
      assert l[n..n + |MARKER + id|] == MARKER + post[..|id|];
      assert OccursAt(l, MARKER + id, n);
    } else {
      ContainsInContext(pre + MARKER, post, "", MARKER + id);
      assert pre + MARKER + post + "" == l;
    }
  }

  /** The marker with an id occurs in an entry at the marker's place, or within the entry's own id and title. */
  lemma MarkerWithId(c: Cron, id: string)
    requires Recoverable(c)
    ensures Contains(EntryLine(c), MARKER + id) <==> id <= After(c) || Contains(After(c), MARKER + id)
  {
    var pre, post := Before(c), After(c);
    var l := EntryLine(c);
    EntryLineParts(c);
    NoMarkerBefore(c);
    if Contains(l, MARKER + id) {
      var j: nat :| j <= |l| && OccursAt(l, MARKER + id, j);
      hide EntryLine, Before, After, Contains, OccursAt;
      OccurrencePlace(pre, post, id, j);
    }
    if id <= post || Contains(post, MARKER + id) {
      MarkerThere(pre, post, id);
    }
  }

  lemma MarkerOfLonger(l: string, id: string, j: nat)
    requires OccursAt(l, MARKER + id, j)
    ensures OccursAt(l, MARKER, j) && l[j + |MARKER|..j + |MARKER| + |id|] == id
  {
    var o := l[j..j + |MARKER + id|];
    assert o[..|MARKER|] == MARKER && o[|MARKER|..] == id;
    assert l[j..j + |MARKER|] == o[..|MARKER|];
    assert l[j + |MARKER|..j + |MARKER| + |id|] == o[|MARKER|..];
  }

  lemma OccurrenceAfter(pre: string, post: string, id: string, j: nat)
    requires OccursAt(pre + MARKER + post, MARKER + id, j) && j >= |pre| + |MARKER|
    ensures Contains(post, MARKER + id)
  {
    var l, k := pre + MARKER + post, |pre| + |MARKER|;
    assert l[k..] == post;
    assert post[j - k..j - k + |MARKER + id|] == l[j..j + |MARKER + id|];
    assert OccursAt(post, MARKER + id, j - k);
  }

  lemma OccurrencePlace(pre: string, post: string, id: string, j: nat)
    requires !Contains(pre, MARKER) && OccursAt(pre + MARKER + post, MARKER + id, j)
    ensures id <= post || Contains(post, MARKER + id)
  {
    var l, n, m := pre + MARKER + post, |pre|, |MARKER|;
    MarkerOfLonger(l, id, j);
    FirstMarker(pre, post);
    hide Contains;
    if j == n {
      assert post[..|id|] == l[n + m..n + m + |id|];
    } else if j < n + m {
      NotInside(pre, post, j);
    } else {
      OccurrenceAfter(pre, post, id, j);
    }
  }

  /** Nothing of an entry but its own id leads `remove_cron` to it. */
  ghost predicate OneMarker(c: Cron) {
    !Contains(After(c), MARKER)
  }

  lemma StartsOwnId(id: string, own: string, title: string)
    requires ' ' !in id
    ensures id <= own + " " + title <==> id <= own
  {
    var p := own + " " + title;
    assert p[|own|] == ' ' && p[..|own|] == own;
    if id <= p {
      assert |id| <= |own| by { assert forall k | 0 <= k < |id| :: id[k] == p[k]; }
      assert id == p[..|id|] == own[..|id|];
    }
    if id <= own {
      assert id == own[..|id|] == p[..|id|];
    }
  }

  /**
   An entry is removed for an id without spaces exactly if that id starts the entry's own,
   or if the marker with that id turns up once more in the entry's id and title. An id
   ending in "#" with a title starting with "arcpanel:" does that.
   */
  lemma RemovedExactly(c: Cron, id: string)
    requires Recoverable(c) && ' ' !in id
    ensures !Spares(id)(EntryLine(c)) <==> id <= c.id || Contains(After(c), MARKER + id)
    ensures OneMarker(c) ==> (!Spares(id)(EntryLine(c)) <==> id <= c.id)
  {
    MarkerWithId(c, id);
    StartsOwnId(id, c.id, c.title);
    if Contains(After(c), MARKER + id) {
      var j: nat :| j <= |After(c)| && OccursAt(After(c), MARKER + id, j);
      MarkerOfLonger(After(c), id, j);
    }
  }

  lemma StraddlingTitle()
    ensures var c := Cron("x#", "true", "* * * * *", "arcpanel:y"); !Spares("y")(EntryLine(c)) && !("y" <= c.id)
  {
    var c := Cron("x#", "true", "* * * * *", "arcpanel:y");
    assert EntryLine(c) == "* * * * * true # arcpanel:x" + (MARKER + "y") + "";
    assert "y"[0] != "x#"[0];
    assert OccursAt(MARKER + "y", MARKER + "y", 0);
    assert Contains(MARKER + "y", MARKER + "y");
    ContainsInContext("* * * * * true # arcpanel:x", MARKER + "y", "", MARKER + "y");
  }

  function Remaining(crons: seq<Cron>, id: string): seq<Cron> {
    if crons == [] then [] else (if id <= crons[0].id then [] else [crons[0]]) + Remaining(crons[1..], id)
  }

  lemma SparesIgnoresCr(id: string)
    requires '\r' !in id
    ensures IgnoresCr(Spares(id))
  {
    forall l: string ensures Spares(id)(DropCr(l)) == Spares(id)(l) {
      ContainsIgnoresCr(l, MARKER + id);
    }
  }

  /** What a removal leaves: not the entries the id starts, nor those in which the marker turns up with it once more. */
  function Left(crons: seq<Cron>, id: string): seq<Cron> {
    if crons == [] then []
    else
      (if id <= crons[0].id || Contains(After(crons[0]), MARKER + id) then [] else [crons[0]]) + Left(crons[1..], id)
  }

  /** No entry but those the id starts spells the marker with it. */
  ghost predicate OnlyOwn(crons: seq<Cron>, id: string) {
    forall i | 0 <= i < |crons| && !(id <= crons[i].id) :: !Contains(After(crons[i]), MARKER + id)
  }

  lemma {:induction false} LeftExactly(crons: seq<Cron>, id: string)
    ensures |Left(crons, id)| <= |Remaining(crons, id)|
    ensures OnlyOwn(crons, id) ==> Left(crons, id) == Remaining(crons, id)
    ensures !OnlyOwn(crons, id) ==> |Left(crons, id)| < |Remaining(crons, id)|
    decreases |crons|
  {
    hide Contains, After;
    if crons != [] {
      LeftExactly(crons[1..], id);
      if !OnlyOwn(crons, id) && (id <= crons[0].id || !Contains(After(crons[0]), MARKER + id)) {
        var i :| 0 <= i < |crons| && !(id <= crons[i].id) && Contains(After(crons[i]), MARKER + id);
        assert crons[1..][i - 1] == crons[i];
      }
    }
  }

  lemma {:induction false} KeptEntries(crons: seq<Cron>, id: string)
    requires AllRecoverable(crons) && ' ' !in id
    ensures Keep(EntryLines(crons), Spares(id)) == EntryLines(Left(crons, id))
    decreases |crons|
  {
    hide Recoverable, EntryLine, OneMarker, After, Contains;
    if crons != [] {
      RemovedExactly(crons[0], id);
      KeptEntries(crons[1..], id);
      var more := [crons[0]] + Left(crons[1..], id);
      assert more[0] == crons[0] && more[1..] == Left(crons[1..], id);
      assert [] + Left(crons[1..], id) == Left(crons[1..], id);
    }
  }

  lemma ForeignIsSpared(lines: seq<string>, id: string)
    requires AllSatisfy(lines, IsForeign)
    ensures AllSatisfy(lines, Spares(id))
  {
    forall i | 0 <= i < |lines| ensures Spares(id)(lines[i]) {
      assert IsForeign(lines[i]);
      if Contains(lines[i], MARKER + id) {
        var j: nat :| j <= |lines[i]| && OccursAt(lines[i], MARKER + id, j);
        MarkerOfLonger(lines[i], id, j);
      }
    }
  }

  lemma EmptyLineIsSpared(id: string)
    ensures Keep([""], Spares(id)) == [""]
  {
    EmptyLineIsForeign();
    ForeignIsSpared([""], id);
    KeepAll([""], Spares(id));
  }

  lemma {:induction false} LeftRecoverable(crons: seq<Cron>, id: string)
    requires AllRecoverable(crons)
    ensures AllRecoverable(Left(crons, id))
    decreases |crons|
  {
    hide Recoverable, After, Contains;
    if crons != [] {
      LeftRecoverable(crons[1..], id);
    }
  }

  /**
   Removing after a sync writes what a sync of the entries left writes, up to foreign "\r"s;
   these are the entries the id does not start if no other one spells the marker with it.
   */
  lemma RemoveAfterSync(table: string, crons: seq<Cron>, id: string)
    requires AllRecoverable(crons) && ' ' !in id && '\r' !in id
    ensures RemovedFrom(Synced(table, crons), id)
         == Written(DropCrs(Foreign(table)) + DropCrs(EntryLines(Left(crons, id))))
    ensures OnlyOwn(crons, id) ==> Left(crons, id) == Remaining(crons, id)
  {
    hide Written, OneMarker, Recoverable, Foreign, EntryLines, Left, OnlyOwn;
    LeftExactly(crons, id);
    ForeignAreLines(table);
    WrittenLines(Foreign(table), crons);
    EmptyLineIsSpared(id);
    if Foreign(table) == [] && crons == [] {
      NothingRemains(id);
    } else {
      ForeignDropped(Foreign(table));
      ForeignIsSpared(DropCrs(Foreign(table)), id);
      KeepAll(DropCrs(Foreign(table)), Spares(id));
      KeptEntries(crons, id);
      SparesIgnoresCr(id);
      KeepDropCrs(EntryLines(crons), Spares(id));
      KeepConcat(DropCrs(Foreign(table)), DropCrs(EntryLines(crons)), Spares(id));
    }
  }

  lemma NothingRemains(id: string)
    ensures Written([""]) == Written(DropCrs([]) + DropCrs(EntryLines(Left([], id))))
  {
  }

  /** With ids of which none starts another one, removing one id removes exactly its entry. */
  lemma {:induction false} RemainingWithout(crons: seq<Cron>, k: nat)
    requires k < |crons|
    requires forall i | 0 <= i < |crons| && i != k :: !(crons[k].id <= crons[i].id)
    ensures Remaining(crons, crons[k].id) == crons[..k] + crons[k + 1..]
    decreases |crons|
  {
    if k > 0 {
      RemainingWithout(crons[1..], k - 1);
      assert crons[..k] + crons[k + 1..] == [crons[0]] + (crons[1..][..k - 1] + crons[1..][k..]);
    } else {
      NoneStarts(crons[1..], crons[0].id);
    }
  }

  lemma {:induction false} NoneStarts(crons: seq<Cron>, id: string)
    requires forall i | 0 <= i < |crons| :: !(id <= crons[i].id)
    ensures Remaining(crons, id) == crons
    decreases |crons|
  {
    if crons != [] {
      NoneStarts(crons[1..], id);
    }
  }

  /**
   What both readers see after a removal: the entries left. These are all but the ones the id
   starts if and only if no other entry spells the marker with the id.
   */
  lemma ListAfterRemove(table: string, crons: seq<Cron>, id: string)
    requires AllRecoverable(crons) && ' ' !in id && '\r' !in id
    ensures var t := RemovedFrom(Synced(table, crons), id);
            && ListCrons(t) == EntriesOf(Left(crons, id)) && ReadEntries(t) == ExportsOfCrons(Left(crons, id))
            && (ListCrons(t) == EntriesOf(Remaining(crons, id)) <==> OnlyOwn(crons, id))
            && (ReadEntries(t) == ExportsOfCrons(Remaining(crons, id)) <==> OnlyOwn(crons, id))
  {
    RemoveAfterSync(table, crons, id);
    LeftRecoverable(crons, id);
    LeftExactly(crons, id);
    var left := Left(crons, id);
    AsMany(left);
    AsMany(Remaining(crons, id));
    ForeignAreLines(table);
    ForeignDropped(Foreign(table));
    hide Recoverable, OneMarker, Foreign, RemovedFrom, Synced, Written, Left, Remaining, OnlyOwn;
    UntailedLines(left);
    UntailedEntries(left);
    ListWritten(DropCrs(Foreign(table)), Untailed(left));
    ReadWritten(DropCrs(Foreign(table)), Untailed(left));
  }

  lemma {:induction false} AsMany(crons: seq<Cron>)
    ensures |EntriesOf(crons)| == |crons| && |ExportsOfCrons(crons)| == |crons|
    decreases |crons|
  {
    hide EntryOf, ExportOf;
    if crons != [] {
      AsMany(crons[1..]);
    }
  }

  /** The entries with titles less one "\r". */
  function Untailed(crons: seq<Cron>): seq<Cron> {
    if crons == [] then [] else [crons[0].(title := DropCr(crons[0].title))] + Untailed(crons[1..])
  }

  lemma {:induction false} UntailedLines(crons: seq<Cron>)
    ensures DropCrs(EntryLines(crons)) == EntryLines(Untailed(crons))
    decreases |crons|
  {
    if crons != [] {
      var c := crons[0].(title := DropCr(crons[0].title));
      DroppedCrInTitle(crons[0]);
      EntryLineParts(c);
      hide EntryLine;
      UntailedLines(crons[1..]);
      var more := [c] + Untailed(crons[1..]);
      assert more[0] == c && more[1..] == Untailed(crons[1..]);
      assert EntryLines(crons)[1..] == EntryLines(crons[1..]);
    }
  }

  lemma UntailedEntry(c: Cron)
    requires Recoverable(c)
    ensures var d := c.(title := DropCr(c.title));
              Recoverable(d) && EntryOf(d) == EntryOf(c) && ExportOf(d) == ExportOf(c)
  {
    DroppedCrInTitle(c);
  }

  lemma {:induction false} UntailedEntries(crons: seq<Cron>)
    requires AllRecoverable(crons)
    ensures AllRecoverable(Untailed(crons))
    ensures EntriesOf(Untailed(crons)) == EntriesOf(crons) && ExportsOfCrons(Untailed(crons)) == ExportsOfCrons(crons)
    decreases |crons|
  {
    hide Recoverable, EntryOf, ExportOf;
    if crons != [] {
      var c := crons[0].(title := DropCr(crons[0].title));
      UntailedEntry(crons[0]);
      UntailedEntries(crons[1..]);
      var more := [c] + Untailed(crons[1..]);
      assert more[0] == c && more[1..] == Untailed(crons[1..]);
    }
  }
}
