/**
 The .env editors of the site installers (`replace_env_line` and `set_ci_env` in
 panel/agent/src/services/cms.rs). Both rewrite every line for a key, append one if there is
 none, and keep the final line end; they differ in which lines are for the key.
 */
module EnvFile {
  import opened Text
  import opened Lines

  // ---------------------------------------------------------------- the edit

  function Mapped(lines: seq<string>, isFor: string -> bool, newLine: string): seq<string> {
    if lines == [] then []
    else [if isFor(lines[0]) then newLine else lines[0]] + Mapped(lines[1..], isFor, newLine)
  }

  predicate AnyFor(lines: seq<string>, isFor: string -> bool) {
    lines != [] && (isFor(lines[0]) || AnyFor(lines[1..], isFor))
  }

  /** The lines after the edit: the line is appended if no line was for the key. */
  function NewLines(lines: seq<string>, isFor: string -> bool, newLine: string): seq<string> {
    Mapped(lines, isFor, newLine) + if AnyFor(lines, isFor) then [] else [newLine]
  }

  predicate EndsWithNl(content: string) {
    content != "" && content[|content| - 1] == '\n'
  }

  function Edited(content: string, isFor: string -> bool, newLine: string): string {
    Join(NewLines(Split(content), isFor, newLine)) + if EndsWithNl(content) then "\n" else ""
  }

  lemma MappedStep(input: seq<string>, i: nat, done: seq<string>, isFor: string -> bool, newLine: string)
    requires i < |input|
    ensures done + Mapped(input[i..], isFor, newLine)
         == done + [if isFor(input[i]) then newLine else input[i]] + Mapped(input[i + 1..], isFor, newLine)
    ensures AnyFor(input[i..], isFor) <==> isFor(input[i]) || AnyFor(input[i + 1..], isFor)
  {
    assert input[i..][1..] == input[i + 1..];
  }

  lemma MappedEnd(input: seq<string>, done: seq<string>, isFor: string -> bool, newLine: string)
    ensures done + Mapped(input[|input|..], isFor, newLine) == done == done + [] && !AnyFor(input[|input|..], isFor)
  {
  }

  method Edit(content: string, isFor: string -> bool, newLine: string) returns (result: string)
    ensures result == Edited(content, isFor, newLine)
  {
    hide Split, Mapped, AnyFor, Join;
    var input := Split(content);
    var lines: seq<string>, found := [], false;
    var i := 0;
    assert input[0..] == input && [] + Mapped(input, isFor, newLine) == Mapped(input, isFor, newLine);
    while i < |input|
      invariant 0 <= i <= |input|
      invariant lines + Mapped(input[i..], isFor, newLine) == Mapped(input, isFor, newLine)
      invariant AnyFor(input, isFor) <==> found || AnyFor(input[i..], isFor)
    {
      MappedStep(input, i, lines, isFor, newLine);
      if isFor(input[i]) {
        found := true;
        lines := lines + [newLine];
      } else {
        lines := lines + [input[i]];
      }
      i := i + 1;
    }
    MappedEnd(input, lines, isFor, newLine);
    if !found {
      lines := lines + [newLine];
    }
    result := Join(lines);
    assert result + "" == result;
    if EndsWithNl(content) {
      result := result + "\n";
    }
  }

  // ---------------------------------------------------------------- the two editors

  function Quoted(value: string): string {
    if ' ' in value then "\"" + value + "\"" else value
  }

  /** `replace_env_line` takes "KEY=" and "# KEY=" at the start of a line. */
  function IsEnvLine(key: string): string -> bool {
    l => StartsWith(l, key + "=") || StartsWith(l, "# " + key + "=")
  }

  function EnvLine(key: string, value: string): string {
    key + "=" + Quoted(value)
  }

  function TrimHashes(s: string): string {
    if s != "" && s[0] == '#' then TrimHashes(s[1..]) else s
  }

  /** A line without its comment marks, as `set_ci_env` looks at it. */
  function Uncommented(t: string): string {
    if StartsWith(t, "#") then Trim(TrimHashes(t)) else t
  }

  predicate Assigns(t: string, key: string) {
    StartsWith(t, key) && StartsWith(TrimStart(t[|key|..]), "=")
  }

  predicate IsCiText(t: string, key: string) {
    && (StartsWith(t, "# " + key) || StartsWith(t, "#" + key) || StartsWith(t, key))
    && Assigns(Uncommented(t), key)
  }

  /** `set_ci_env` takes "key =", "#key =" and "# key =", with any whitespace around. */
  function IsCiLine(key: string): string -> bool {
    l => IsCiText(Trim(l), key)
  }

  function CiLine(key: string, value: string): string {
    key + " = " + value
  }

  method ReplaceEnvLine(content: string, key: string, value: string) returns (result: string)
    ensures result == Edited(content, IsEnvLine(key), EnvLine(key, value))
  {
    result := Edit(content, IsEnvLine(key), EnvLine(key, value));
  }

  method SetCiEnv(content: string, key: string, value: string) returns (result: string)
    ensures result == Edited(content, IsCiLine(key), CiLine(key, value))
  {
    result := Edit(content, IsCiLine(key), CiLine(key, value));
  }

  // ---------------------------------------------------------------- a class of lines and its new line

  /** What the edits rely on: the new line is one line for its key, and a "\r" plays no part. */
  ghost predicate Proper(isFor: string -> bool, newLine: string) {
    newLine != "" && IsLine(newLine) && !EndsInCr(newLine) && isFor(newLine) && IgnoresCr(isFor)
  }

  lemma {:induction false} MappedFacts(lines: seq<string>, isFor: string -> bool, newLine: string)
    ensures |Mapped(lines, isFor, newLine)| == |lines|
    ensures forall i | 0 <= i < |lines| ::
              Mapped(lines, isFor, newLine)[i] == if isFor(lines[i]) then newLine else lines[i]
    decreases |lines|
  {
    if lines != [] {
      MappedFacts(lines[1..], isFor, newLine);
    }
  }

  lemma {:induction false} AnyForMeans(lines: seq<string>, isFor: string -> bool)
    ensures AnyFor(lines, isFor) <==> exists i :: 0 <= i < |lines| && isFor(lines[i])
    decreases |lines|
  {
    if lines != [] {
      AnyForMeans(lines[1..], isFor);
      if AnyFor(lines[1..], isFor) {
        var i :| 0 <= i < |lines[1..]| && isFor(lines[1..][i]);
        assert isFor(lines[i + 1]);
      }
      if exists i :: 0 < i < |lines| && isFor(lines[i]) {
        var i :| 0 < i < |lines| && isFor(lines[i]);
        assert isFor(lines[1..][i - 1]);
      }
    }
  }

  /** Every line for the key is the new line, and there is one. */
  ghost predicate Carries(lines: seq<string>, isFor: string -> bool, newLine: string) {
    && (forall i | 0 <= i < |lines| && isFor(lines[i]) :: lines[i] == newLine)
    && newLine in lines
  }

  lemma NewLinesCarry(lines: seq<string>, isFor: string -> bool, newLine: string)
    requires isFor(newLine)
    ensures Carries(NewLines(lines, isFor, newLine), isFor, newLine)
  {
    MappedFacts(lines, isFor, newLine);
    AnyForMeans(lines, isFor);
    var r := NewLines(lines, isFor, newLine);
    if AnyFor(lines, isFor) {
      var i :| 0 <= i < |lines| && isFor(lines[i]);
      assert r[i] == newLine;
    } else {
      assert r[|lines|] == newLine;
    }
  }

  /** Lines for other purposes are neither touched nor moved. */
  lemma {:induction false} MappedKeeps(lines: seq<string>, isFor: string -> bool, newLine: string, p: string -> bool)
    requires !p(newLine) && forall i | 0 <= i < |lines| && p(lines[i]) :: !isFor(lines[i])
    ensures Keep(Mapped(lines, isFor, newLine), p) == Keep(lines, p)
    decreases |lines|
  {
    if lines != [] {
      MappedKeeps(lines[1..], isFor, newLine, p);
      var m := Mapped(lines, isFor, newLine);
      assert m[1..] == Mapped(lines[1..], isFor, newLine);
    }
  }

  lemma NewLinesKeep(lines: seq<string>, isFor: string -> bool, newLine: string, p: string -> bool)
    requires !p(newLine) && forall i | 0 <= i < |lines| && p(lines[i]) :: !isFor(lines[i])
    ensures Keep(NewLines(lines, isFor, newLine), p) == Keep(lines, p)
  {
    MappedKeeps(lines, isFor, newLine, p);
    var added := if AnyFor(lines, isFor) then [] else [newLine];
    KeepConcat(Mapped(lines, isFor, newLine), added, p);
    KeepNone(added, p);
    assert Keep(lines, p) + [] == Keep(lines, p);
  }

  // ---------------------------------------------------------------- the file after an edit

  lemma {:induction false} SplitLastNotEmpty(content: string)
    requires content != "" && !EndsWithNl(content)
    ensures Split(content) != [] && Split(content)[|Split(content)| - 1] != ""
    decreases |content|
  {
    var i := FirstBreak(content);
    if i < |content| {
      var rest := content[i + 1..];
      assert rest != "" && rest[|rest| - 1] == content[|content| - 1] by {
        assert i != |content| - 1;
      }
      SplitLastNotEmpty(rest);
    }
  }

  lemma NewLinesAreLines(content: string, isFor: string -> bool, newLine: string)
    requires IsLine(newLine)
    ensures AreLines(NewLines(Split(content), isFor, newLine)) && NewLines(Split(content), isFor, newLine) != []
  {
    SplitGivesLines(content);
    MappedFacts(Split(content), isFor, newLine);
    AnyForMeans(Split(content), isFor);
  }

  lemma LastNewLine(content: string, isFor: string -> bool, newLine: string)
    requires newLine != "" && !EndsWithNl(content)
    ensures var r := NewLines(Split(content), isFor, newLine); r != [] && r[|r| - 1] != ""
  {
    MappedFacts(Split(content), isFor, newLine);
    AnyForMeans(Split(content), isFor);
    if content == "" {
      NothingSplit();
    } else {
      SplitLastNotEmpty(content);
    }
  }

  /** Of lines with a line end each reading takes one "\r"; an unterminated last line is read as it is. */
  function Read(lines: seq<string>, terminated: bool): seq<string>
    requires lines != []
  {
    if terminated then DropCrs(lines) else DropCrs(lines[..|lines| - 1]) + [lines[|lines| - 1]]
  }

  lemma EditedLines(content: string, isFor: string -> bool, newLine: string)
    requires newLine != "" && IsLine(newLine)
    ensures var r := NewLines(Split(content), isFor, newLine);
            && r != [] && Split(Edited(content, isFor, newLine)) == Read(r, EndsWithNl(content))
            && (EndsWithNl(Edited(content, isFor, newLine)) <==> EndsWithNl(content))
  {
    var r := NewLines(Split(content), isFor, newLine);
    NewLinesAreLines(content, isFor, newLine);
    if EndsWithNl(content) {
      SplitWritten(r);
    } else {
      LastNewLine(content, isFor, newLine);
      hide Split, NewLines;
      SplitJoin(r);
      assert Join(r) + "" == Join(r);
      JoinEnds(r);
    }
  }

  lemma {:induction false} JoinEnds(lines: seq<string>)
    requires lines != [] && AreLines(lines) && lines[|lines| - 1] != ""
    ensures Join(lines) != "" && !EndsWithNl(Join(lines))
    decreases |lines|
  {
    var last := lines[|lines| - 1];
    assert IsLine(last) && last[|last| - 1] in last;
    if |lines| > 1 {
      JoinLast(lines);
    }
  }

  lemma ReadAt(lines: seq<string>, terminated: bool, i: nat)
    requires i < |lines|
    ensures |Read(lines, terminated)| == |lines|
    ensures Read(lines, terminated)[i] == lines[i] || Read(lines, terminated)[i] == DropCr(lines[i])
  {
  }

  lemma ReadCarries(lines: seq<string>, terminated: bool, isFor: string -> bool, newLine: string)
    requires lines != [] && Carries(lines, isFor, newLine) && IgnoresCr(isFor) && !EndsInCr(newLine)
    ensures Carries(Read(lines, terminated), isFor, newLine)
  {
    var r := Read(lines, terminated);
    ReadAt(lines, terminated, 0);
    forall i | 0 <= i < |r| && isFor(r[i]) ensures r[i] == newLine {
      ReadAt(lines, terminated, i);
      assert isFor(DropCr(lines[i])) == isFor(lines[i]);
    }
    var k :| 0 <= k < |lines| && lines[k] == newLine;
    ReadAt(lines, terminated, k);
    assert r[k] == newLine;
  }

  /** After an edit every line for the key is the new one, and there is one. */
  lemma EditCarries(content: string, isFor: string -> bool, newLine: string)
    requires Proper(isFor, newLine)
    ensures Carries(Split(Edited(content, isFor, newLine)), isFor, newLine)
  {
    hide Edited, NewLines, Split, Carries, Read, IgnoresCr;
    EditedLines(content, isFor, newLine);
    NewLinesCarry(Split(content), isFor, newLine);
    ReadCarries(NewLines(Split(content), isFor, newLine), EndsWithNl(content), isFor, newLine);
  }

  /** No line for the key but the last one, and that is not terminated. */
  ghost predicate OnlyAtEnd(content: string, isFor: string -> bool) {
    !EndsWithNl(content) && forall i | 0 <= i < |Split(content)| - 1 :: !isFor(Split(content)[i])
  }

  /**
   A new line is carried exactly if it does not end in a "\r", or stands, unterminated, at
   the end of the file only.
   */
  lemma EditCarriesExactly(content: string, isFor: string -> bool, newLine: string)
    requires newLine != "" && IsLine(newLine) && isFor(newLine) && IgnoresCr(isFor)
    ensures Carries(Split(Edited(content, isFor, newLine)), isFor, newLine)
            <==> !EndsInCr(newLine) || OnlyAtEnd(content, isFor)
  {
    hide Edited, Split, Carries, IgnoresCr, Read;
    if !EndsInCr(newLine) {
      EditCarries(content, isFor, newLine);
    } else {
      EditedLines(content, isFor, newLine);
      NewLinesCarry(Split(content), isFor, newLine);
      MappedFacts(Split(content), isFor, newLine);
      AnyForMeans(Split(content), isFor);
      CrRead(NewLines(Split(content), isFor, newLine), EndsWithNl(content), isFor, newLine);
      NewLinesFor(Split(content), isFor, newLine);
    }
  }

  /** Where lines for the key stand after an edit. */
  lemma NewLinesFor(lines: seq<string>, isFor: string -> bool, newLine: string)
    requires isFor(newLine)
    ensures var r := NewLines(lines, isFor, newLine);
            (forall i | 0 <= i < |r| - 1 :: !isFor(r[i])) <==> (forall i | 0 <= i < |lines| - 1 :: !isFor(lines[i]))
  {
    var r := NewLines(lines, isFor, newLine);
    MappedFacts(lines, isFor, newLine);
    AnyForMeans(lines, isFor);
    forall i | 0 <= i < |lines| ensures isFor(r[i]) <==> isFor(lines[i]) {
      assert r[i] == Mapped(lines, isFor, newLine)[i];
    }
  }

  lemma CrRead(lines: seq<string>, terminated: bool, isFor: string -> bool, newLine: string)
    requires lines != [] && Carries(lines, isFor, newLine) && IgnoresCr(isFor) && isFor(newLine) && EndsInCr(newLine)
    ensures Carries(Read(lines, terminated), isFor, newLine)
            <==> !terminated && forall i | 0 <= i < |lines| - 1 :: !isFor(lines[i])
  {
    hide Read;
    var r := Read(lines, terminated);
    assert |DropCr(newLine)| < |newLine|;
    forall i | 0 <= i < |lines|
      ensures |r| == |lines| && r[i] == (if terminated || i < |lines| - 1 then DropCr(lines[i]) else lines[i])
      ensures isFor(r[i]) <==> isFor(lines[i])
    {
      ReadExactly(lines, terminated, i);
      assert isFor(DropCr(lines[i])) == isFor(lines[i]);
    }
    var k :| 0 <= k < |lines| && lines[k] == newLine;
    assert isFor(r[k]);
  }

  /** The same lines, but for a "\r" at the end of some. */
  ghost predicate SameUpToCr(a: seq<string>, b: seq<string>) {
    |a| == |b| && forall i | 0 <= i < |a| :: b[i] == a[i] || b[i] == DropCr(a[i])
  }

  lemma ReadKeeps(lines: seq<string>, terminated: bool, p: string -> bool)
    requires lines != [] && IgnoresCr(p)
    ensures SameUpToCr(Keep(lines, p), Keep(Read(lines, terminated), p))
  {
    var n := |lines| - 1;
    if terminated {
      KeepDropCrs(lines, p);
    } else {
      assert lines == lines[..n] + [lines[n]];
      KeepConcat(lines[..n], [lines[n]], p);
      KeepConcat(DropCrs(lines[..n]), [lines[n]], p);
      KeepDropCrs(lines[..n], p);
    }
  }

  /** All other lines keep their order and their text, but for a "\r" at the end. */
  lemma EditKeepsOthers(content: string, isFor: string -> bool, newLine: string, p: string -> bool)
    requires Proper(isFor, newLine) && IgnoresCr(p) && forall l: string :: p(l) ==> !isFor(l)
    ensures SameUpToCr(Keep(Split(content), p), Keep(Split(Edited(content, isFor, newLine)), p))
  {
    hide Edited, NewLines, Split, Read, SameUpToCr;
    EditedLines(content, isFor, newLine);
    assert !p(newLine);
    NewLinesKeep(Split(content), isFor, newLine, p);
    ReadKeeps(NewLines(Split(content), isFor, newLine), EndsWithNl(content), p);
  }

  // ---------------------------------------------------------------- idempotence

  lemma {:induction false} TotalUpToCr(a: seq<string>, b: seq<string>)
    requires SameUpToCr(a, b)
    ensures Total(b) <= Total(a) && (Total(b) == Total(a) ==> a == b)
    decreases |a|
  {
    if a != [] {
      forall i | 0 <= i < |a[1..]| ensures b[1..][i] == a[1..][i] || b[1..][i] == DropCr(a[1..][i]) {
        assert b[i + 1] == a[i + 1] || b[i + 1] == DropCr(a[i + 1]);
      }
      TotalUpToCr(a[1..], b[1..]);
      assert a == [a[0]] + a[1..] && b == [b[0]] + b[1..];
    }
  }

  lemma JoinUpToCr(a: seq<string>, b: seq<string>)
    requires SameUpToCr(a, b)
    ensures Join(a) == Join(b) <==> a == b
  {
    if Join(a) == Join(b) {
      JoinLength(a);
      JoinLength(b);
      TotalUpToCr(a, b);
    }
  }

  /** No line for another purpose ends in "\r", an unterminated last one aside. */
  ghost predicate NoCrElsewhere(lines: seq<string>, terminated: bool, isFor: string -> bool) {
    forall i | 0 <= i < |lines| && (terminated || i < |lines| - 1) && !isFor(lines[i]) :: !EndsInCr(lines[i])
  }

  lemma ReadExactly(lines: seq<string>, terminated: bool, i: nat)
    requires i < |lines|
    ensures |Read(lines, terminated)| == |lines|
    ensures Read(lines, terminated)[i] == if terminated || i < |lines| - 1 then DropCr(lines[i]) else lines[i]
  {
  }

  lemma SecondRoundAt(lines: seq<string>, terminated: bool, isFor: string -> bool, newLine: string, i: nat)
    requires i < |lines| && Carries(lines, isFor, newLine) && Proper(isFor, newLine)
    ensures |Read(lines, terminated)| == |lines|
    ensures (if isFor(Read(lines, terminated)[i]) then newLine else Read(lines, terminated)[i])
         == (if isFor(lines[i]) || !(terminated || i < |lines| - 1) then lines[i] else DropCr(lines[i]))
  {
    ReadExactly(lines, terminated, i);
    assert isFor(DropCr(lines[i])) == isFor(lines[i]);
  }

  lemma SecondLines(lines: seq<string>, terminated: bool, isFor: string -> bool, newLine: string)
    requires lines != [] && Carries(lines, isFor, newLine) && Proper(isFor, newLine)
    ensures var r := Read(lines, terminated);
            NewLines(r, isFor, newLine) == Mapped(r, isFor, newLine)
  {
    var r := Read(lines, terminated);
    ReadCarries(lines, terminated, isFor, newLine);
    hide Read, IgnoresCr;
    AnyForMeans(r, isFor);
    var k :| 0 <= k < |r| && r[k] == newLine;
    assert Mapped(r, isFor, newLine) + [] == Mapped(r, isFor, newLine);
  }

  lemma SecondRound(lines: seq<string>, terminated: bool, isFor: string -> bool, newLine: string)
    requires lines != [] && Carries(lines, isFor, newLine) && Proper(isFor, newLine)
    ensures var again := NewLines(Read(lines, terminated), isFor, newLine);
            SameUpToCr(lines, again) && (again == lines <==> NoCrElsewhere(lines, terminated, isFor))
  {
    hide NewLines, Mapped, Read, Proper, Carries;
    var r := Read(lines, terminated);
    var again := NewLines(r, isFor, newLine);
    SecondLines(lines, terminated, isFor, newLine);
    MappedFacts(r, isFor, newLine);
    SecondRoundAt(lines, terminated, isFor, newLine, 0);
    forall i | 0 <= i < |lines|
      ensures again[i] == if isFor(lines[i]) || !(terminated || i < |lines| - 1) then lines[i] else DropCr(lines[i])
    {
      SecondRoundAt(lines, terminated, isFor, newLine, i);
    }
    if again == lines {
      forall i | 0 <= i < |lines| && (terminated || i < |lines| - 1) && !isFor(lines[i]) ensures !EndsInCr(lines[i]) {
        assert again[i] == DropCr(lines[i]);
      }
    }
  }

  /** The same edit once more changes nothing, exactly if no other terminated line ends in "\r". */
  lemma EditTwice(content: string, isFor: string -> bool, newLine: string)
    requires Proper(isFor, newLine)
    ensures var once := Edited(content, isFor, newLine);
            Edited(once, isFor, newLine) == once
            <==> NoCrElsewhere(NewLines(Split(content), isFor, newLine), EndsWithNl(content), isFor)
  {
    hide NewLines, Split, Read, NoCrElsewhere, Carries, SameUpToCr, EndsWithNl;
    var r, nl := NewLines(Split(content), isFor, newLine), EndsWithNl(content);
    EditedLines(content, isFor, newLine);
    NewLinesCarry(Split(content), isFor, newLine);
    SecondRound(r, nl, isFor, newLine);
    var again := NewLines(Read(r, nl), isFor, newLine);
    JoinUpToCr(r, again);
    var tail := if nl then "\n" else "";
    assert Edited(content, isFor, newLine) == Join(r) + tail;
    assert Edited(Edited(content, isFor, newLine), isFor, newLine) == Join(again) + tail;
    SameHead(Join(again), Join(r), tail);
  }

  lemma SameHead(a: string, b: string, tail: string)
    ensures a + tail == b + tail <==> a == b
  {
    if a + tail == b + tail {
      assert a == (a + tail)[..|a|] && b == (b + tail)[..|b|];
    }
  }

  // ---------------------------------------------------------------- one key after another

  lemma NewLinesCarryOther(lines: seq<string>, isFor: string -> bool, newLine: string, f: string -> bool, line: string)
    requires Carries(lines, f, line) && f(line) && !f(newLine) && forall l: string :: f(l) ==> !isFor(l)
    ensures Carries(NewLines(lines, isFor, newLine), f, line)
  {
    MappedFacts(lines, isFor, newLine);
    var r := NewLines(lines, isFor, newLine);
    var k :| 0 <= k < |lines| && lines[k] == line;
    assert r[k] == line;
    forall i | 0 <= i < |r| && f(r[i]) ensures r[i] == line {
      assert i < |lines| && !isFor(lines[i]);
    }
  }

  /** An edit for another key leaves the lines of a key as they are. */
  lemma EditCarriesOther(content: string, isFor: string -> bool, newLine: string, f: string -> bool, line: string)
    requires Proper(isFor, newLine) && Proper(f, line)
    requires Carries(Split(content), f, line) && forall l: string :: f(l) ==> !isFor(l)
    ensures Carries(Split(Edited(content, isFor, newLine)), f, line)
  {
    hide Edited, NewLines, Split, Carries, Read, IgnoresCr;
    EditedLines(content, isFor, newLine);
    NewLinesCarryOther(Split(content), isFor, newLine, f, line);
    ReadCarries(NewLines(Split(content), isFor, newLine), EndsWithNl(content), f, line);
  }

  datatype Setting = Setting(key: string, value: string)

  /** A chain of `replace_env_line` calls, as an installer makes them. */
  function EnvChain(content: string, settings: seq<Setting>): string {
    if settings == [] then content
    else
      var s := settings[|settings| - 1];
      Edited(EnvChain(content, settings[..|settings| - 1]), IsEnvLine(s.key), EnvLine(s.key, s.value))
  }

  function CiChain(content: string, settings: seq<Setting>): string {
    if settings == [] then content
    else
      var s := settings[|settings| - 1];
      Edited(CiChain(content, settings[..|settings| - 1]), IsCiLine(s.key), CiLine(s.key, s.value))
  }

  ghost predicate IsValue(value: string) {
    '\n' !in value && !EndsInCr(value)
  }

  /** A value that is written in quotes may end in a carriage return. */
  ghost predicate IsEnvValue(value: string) {
    '\n' !in value && (EndsInCr(value) ==> ' ' in value)
  }

  ghost predicate IsEnvKey(key: string) {
    '=' !in key && '\n' !in key && '\r' !in key && !("# " <= key)
  }

  /** A key as CodeIgniter's .env has them. */
  ghost predicate IsCiKey(key: string) {
    key != "" && key[0] != '#' && '=' !in key && NoWhite(key)
  }

  lemma EnvProper(key: string, value: string)
    requires IsEnvKey(key) && IsEnvValue(value)
    ensures Proper(IsEnvLine(key), EnvLine(key, value))
  {
    var l := EnvLine(key, value);
    assert l == (key + "=") + Quoted(value) && l[..|key| + 1] == key + "=";
    assert l[|l| - 1] == (if Quoted(value) == "" then '=' else Quoted(value)[|Quoted(value)| - 1]);
    forall x: string ensures IsEnvLine(key)(DropCr(x)) == IsEnvLine(key)(x) {
      PrefixIgnoresCr(x, key + "=");
      PrefixIgnoresCr(x, "# " + key + "=");
    }
  }

  lemma OneKeyBeforeEquals(l: string, a: string, b: string)
    requires StartsWith(l, a + "=") && StartsWith(l, b + "=") && '=' !in a && '=' !in b
    ensures a == b
  {
    assert l[..|a| + 1] == a + ['='] && l[..|b| + 1] == b + ['='];
    assert l == a + ['='] + l[|a| + 1..] && l == b + ['='] + l[|b| + 1..];
    FirstCharAfter(a, '=', l[|a| + 1..]);
    FirstCharAfter(b, '=', l[|b| + 1..]);
    assert a == l[..|a|] && b == l[..|b|];
  }

  lemma EnvKeysApart(a: string, b: string)
    requires IsEnvKey(a) && IsEnvKey(b) && a != b
    ensures forall l: string :: IsEnvLine(a)(l) ==> !IsEnvLine(b)(l)
  {
    forall l: string | IsEnvLine(a)(l) ensures !IsEnvLine(b)(l) {
      EnvLineOfOne(l, a, b);
    }
  }

  lemma EnvLineOfOne(l: string, a: string, b: string)
    requires IsEnvKey(a) && IsEnvKey(b) && a != b && IsEnvLine(a)(l)
    ensures !IsEnvLine(b)(l)
  {
    var ca, cb := "# " + a, "# " + b;
    assert ca[..2] == cb[..2] == "# " && ca[2..] == a && cb[2..] == b;
    if StartsWith(l, a + "=") && StartsWith(l, b + "=") { OneKeyBeforeEquals(l, a, b); }
    if StartsWith(l, a + "=") && StartsWith(l, cb + "=") { OneKeyBeforeEquals(l, a, cb); }
    if StartsWith(l, ca + "=") && StartsWith(l, b + "=") { OneKeyBeforeEquals(l, ca, b); }
    if StartsWith(l, ca + "=") && StartsWith(l, cb + "=") { OneKeyBeforeEquals(l, ca, cb); }
  }

  ghost predicate EnvSettings(settings: seq<Setting>) {
    && (forall i | 0 <= i < |settings| :: IsEnvKey(settings[i].key) && IsEnvValue(settings[i].value))
    && (forall i, j | 0 <= i < j < |settings| :: settings[i].key != settings[j].key)
  }

  /**
   After a chain of edits for distinct keys each key carries its value: the order of the
   edits does not matter to it.
   */
  lemma {:induction false} EnvChainCarries(content: string, settings: seq<Setting>, k: nat)
    requires EnvSettings(settings) && k < |settings|
    ensures var s := settings[k];
            Carries(Split(EnvChain(content, settings)), IsEnvLine(s.key), EnvLine(s.key, s.value))
    decreases |settings|
  {
    hide Edited, Split, Carries, Proper, EnvLine, IsEnvLine, IsEnvKey, IsEnvValue;
    var n := |settings| - 1;
    var last, before := settings[n], EnvChain(content, settings[..n]);
    EnvProper(last.key, last.value);
    if k == n {
      EditCarries(before, IsEnvLine(last.key), EnvLine(last.key, last.value));
    } else {
      EnvChainCarries(content, settings[..n], k);
      EnvProper(settings[k].key, settings[k].value);
      EnvKeysApart(settings[k].key, last.key);
      EditCarriesOther(before, IsEnvLine(last.key), EnvLine(last.key, last.value),
                       IsEnvLine(settings[k].key), EnvLine(settings[k].key, settings[k].value));
    }
  }

  // ---------------------------------------------------------------- keys of CodeIgniter

  lemma {:induction false} TrimEndKeepsHead(a: string, b: string)
    requires a != "" && !IsWhitespace(a[|a| - 1])
    ensures a <= TrimEnd(a + b)
    decreases |b|
  {
    if b == "" {
      assert a + b == a;
    } else if IsWhitespace((a + b)[|a + b| - 1]) {
      assert (a + b)[..|a + b| - 1] == a + b[..|b| - 1];
      TrimEndKeepsHead(a, b[..|b| - 1]);
    }
  }

  lemma HeadAssigns(t: string, key: string)
    requires key + " =" <= t
    ensures StartsWith(t, key) && Assigns(t, key)
  {
    assert t[..|key| + 2] == key + " =";
    assert t[..|key|] == t[..|key| + 2][..|key|] == key;
    var rest := t[|key|..];
    assert rest[0] == t[|key|] == ' ' && rest[1..][0] == t[|key| + 1] == '=';
    assert TrimStart(rest) == rest[1..];
  }

  lemma HeadIsCiText(t: string, key: string)
    requires IsCiKey(key) && key + " =" <= t
    ensures IsCiText(t, key)
  {
    hide Assigns, TrimStart;
    HeadAssigns(t, key);
    assert t[0] == key[0];
  }

  lemma CiLineIsFor(key: string, value: string)
    requires IsCiKey(key)
    ensures IsCiLine(key)(CiLine(key, value))
  {
    hide IsCiText, TrimEnd;
    var l, head := CiLine(key, value), key + " =";
    assert l == head + (" " + value) && l[0] == key[0];
    TrimEndKeepsHead(head, " " + value);
    assert TrimStart(l) == l;
    HeadIsCiText(Trim(l), key);
  }

  lemma CiIgnoresCr(key: string)
    ensures IgnoresCr(IsCiLine(key))
  {
    hide IsCiText, Trim;
    forall l: string ensures IsCiLine(key)(DropCr(l)) == IsCiLine(key)(l) {
      if EndsInCr(l) {
        assert l == DropCr(l) + ['\r'];
        TrimSnoc(DropCr(l), '\r');
      }
    }
  }

  lemma CiProper(key: string, value: string)
    requires IsCiKey(key) && IsValue(value)
    ensures Proper(IsCiLine(key), CiLine(key, value))
  {
    hide IsCiLine, IgnoresCr;
    CiLineIsFor(key, value);
    CiIgnoresCr(key);
    var l := CiLine(key, value);
    assert l[|l| - 1] == (if value == "" then ' ' else value[|value| - 1]);
    assert IsWhitespace('\n');
  }

  /** What starts with a longer key does not assign to a shorter one. */
  lemma AssignsLonger(t: string, a: string, b: string)
    requires IsCiKey(b) && StartsWith(t, b) && |a| < |b|
    ensures !Assigns(t, a)
  {
    var rest := t[|a|..];
    assert rest[0] == b[|a|] && b[|a|] in b;
    assert TrimStart(rest) == rest;
  }

  lemma AssignsOne(t: string, a: string, b: string)
    requires IsCiKey(a) && IsCiKey(b) && Assigns(t, a) && Assigns(t, b) && |a| <= |b|
    ensures a == b
  {
    if |a| < |b| {
      AssignsLonger(t, a, b);
    } else {
      assert t[..|a|] == a && t[..|b|] == b;
    }
  }

  lemma CiKeysApart(a: string, b: string)
    requires IsCiKey(a) && IsCiKey(b) && a != b
    ensures forall l: string :: IsCiLine(a)(l) ==> !IsCiLine(b)(l)
  {
    forall l: string | IsCiLine(a)(l) && IsCiLine(b)(l) ensures false {
      var t := Uncommented(Trim(l));
      if |a| <= |b| {
        AssignsOne(t, a, b);
      } else {
        AssignsOne(t, b, a);
      }
    }
  }

  ghost predicate CiSettings(settings: seq<Setting>) {
    && (forall i | 0 <= i < |settings| :: IsCiKey(settings[i].key) && IsValue(settings[i].value))
    && (forall i, j | 0 <= i < j < |settings| :: settings[i].key != settings[j].key)
  }

  lemma {:induction false} CiChainCarries(content: string, settings: seq<Setting>, k: nat)
    requires CiSettings(settings) && k < |settings|
    ensures var s := settings[k];
            Carries(Split(CiChain(content, settings)), IsCiLine(s.key), CiLine(s.key, s.value))
    decreases |settings|
  {
    hide Edited, Split, Carries, Proper, CiLine, IsCiLine, IsCiKey, IsValue;
    var n := |settings| - 1;
    var last, before := settings[n], CiChain(content, settings[..n]);
    CiProper(last.key, last.value);
    if k == n {
      EditCarries(before, IsCiLine(last.key), CiLine(last.key, last.value));
    } else {
      CiChainCarries(content, settings[..n], k);
      CiProper(settings[k].key, settings[k].value);
      CiKeysApart(settings[k].key, last.key);
      EditCarriesOther(before, IsCiLine(last.key), CiLine(last.key, last.value),
                       IsCiLine(settings[k].key), CiLine(settings[k].key, settings[k].value));
    }
  }
}
