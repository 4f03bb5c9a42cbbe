/**
 The editors and readers of Postfix's main.cf in panel/agent/src/routes/mail.rs: SMTP relay,
 outbound rate limit and TLS levels. Each editor drops the lines it owns and appends a block;
 each reader looks for the first line of its kind.
 */
module MainCf {
  import opened Wrappers
  import opened Text
  import opened Lines

  // ---------------------------------------------------------------- edit and read

  /** The lines an editor leaves alone, in order. */
  function Cleaned(conf: string, keep: string -> bool): seq<string> {
    Keep(Split(conf), keep)
  }

  /** Drop the own lines. */
  function Removed(conf: string, keep: string -> bool): string {
    Join(Cleaned(conf, keep))
  }

  /** Drop the own lines and append a block. */
  function Installed(conf: string, keep: string -> bool, block: seq<string>): string {
    Join(Cleaned(conf, keep)) + "\n" + Written(block)
  }

  /** `split(c).nth(1)`, or the empty string. */
  function SecondPiece(l: string, c: char): string {
    var i := FirstChar(l, c);
    if i == |l| then "" else l[i + 1..][..FirstChar(l[i + 1..], c)]
  }

  function StatusIn(lines: seq<string>, p: string -> bool, c: char): Option<string> {
    match Find(lines, p)
    case None => None
    case Some(l) => Some(Trim(SecondPiece(l, c)))
  }

  /** What a reader reports: the trimmed text behind the separator in the first line of its kind. */
  function Status(conf: string, p: string -> bool, c: char): Option<string> {
    StatusIn(Split(conf), p, c)
  }

  // ---------------------------------------------------------------- lines after an edit

  ghost predicate IsBlock(block: seq<string>) {
    block != [] && AreLines(block) && NoCr(block)
  }

  lemma CleanedAreLines(conf: string, keep: string -> bool)
    ensures AreLines(Cleaned(conf, keep)) && AllSatisfy(Cleaned(conf, keep), keep)
  {
    SplitGivesLines(conf);
    KeepSatisfies(Split(conf), keep);
  }

  lemma InstalledLines(conf: string, keep: string -> bool, block: seq<string>)
    requires IsBlock(block)
    ensures Split(Installed(conf, keep, block)) == DropCrs(Padded(Cleaned(conf, keep))) + block
  {
    CleanedAreLines(conf, keep);
    SplitJoinThen(Cleaned(conf, keep), Written(block));
    SplitWritten(block);
    DropCrsNothing(block);
  }

  lemma PaddedSatisfies(lines: seq<string>, keep: string -> bool)
    requires AllSatisfy(lines, keep) && keep("")
    ensures AllSatisfy(Padded(lines), keep)
  {
  }

  lemma KeepDropped(lines: seq<string>, keep: string -> bool)
    requires AllSatisfy(lines, keep) && IgnoresCr(keep)
    ensures Keep(DropCrs(lines), keep) == DropCrs(lines)
  {
    KeepAll(lines, keep);
    KeepDropCrs(lines, keep);
  }

  /** Every line outside the editor's own survives an installation, in order, up to one "\r" at its end. */
  lemma ForeignAfterInstall(conf: string, keep: string -> bool, block: seq<string>)
    requires IsBlock(block) && IgnoresCr(keep) && keep("") && NoneSatisfies(block, keep)
    ensures Cleaned(Installed(conf, keep, block), keep) == DropCrs(Padded(Cleaned(conf, keep)))
  {
    var ks := Padded(Cleaned(conf, keep));
    InstalledLines(conf, keep, block);
    CleanedAreLines(conf, keep);
    PaddedSatisfies(Cleaned(conf, keep), keep);
    hide Installed, Cleaned, Padded;
    KeepDropped(ks, keep);
    KeepNone(block, keep);
    KeepConcat(DropCrs(ks), block, keep);
  }

  /** What `lines` makes of joined lines. */
  function Rejoined(lines: seq<string>): seq<string> {
    if lines == [] then []
    else
      var n := |lines| - 1;
      DropCrs(lines[..n]) + (if lines[n] == "" then [] else [lines[n]])
  }

  /** And a removal: there the last line keeps its "\r", and an empty last line is lost. */
  lemma ForeignAfterRemove(conf: string, keep: string -> bool)
    requires IgnoresCr(keep)
    ensures Cleaned(Removed(conf, keep), keep) == Rejoined(Cleaned(conf, keep))
  {
    var ks := Cleaned(conf, keep);
    CleanedAreLines(conf, keep);
    if ks == [] {
      NothingJoined();
    } else {
      var n := |ks| - 1;
      SplitJoin(ks);
      assert AllSatisfy(ks[..n], keep) && keep(ks[n]);
      hide Split, Join;
      KeepDropped(ks[..n], keep);
      var tail := if ks[n] == "" then [] else [ks[n]];
      KeepAll(tail, keep);
      KeepConcat(DropCrs(ks[..n]), tail, keep);
    }
  }

  lemma JoinPadded(lines: seq<string>)
    ensures Join(Padded(lines)) == Join(lines) && (NoCr(Padded(lines)) <==> NoCr(lines))
  {
  }

  lemma JoinDropped(lines: seq<string>)
    ensures Join(DropCrs(lines)) == Join(lines) <==> NoCr(lines)
  {
    DropCrsNothing(lines);
    if !NoCr(lines) {
      ShorterAfterDrop(lines, []);
      assert DropCrs(lines) + [] == DropCrs(lines) && lines + [] == lines;
    }
  }

  /**
   Removing after installing writes, byte for byte, what removing alone writes, exactly if
   no foreign line ends in "\r".
   */
  lemma RemoveAfterInstall(conf: string, keep: string -> bool, block: seq<string>)
    requires IsBlock(block) && IgnoresCr(keep) && keep("") && NoneSatisfies(block, keep)
    ensures Removed(Installed(conf, keep, block), keep) == Removed(conf, keep) <==> NoCr(Cleaned(conf, keep))
  {
    ForeignAfterInstall(conf, keep, block);
    hide Cleaned, Installed;
    JoinDropped(Padded(Cleaned(conf, keep)));
    JoinPadded(Cleaned(conf, keep));
  }

  /** The last of two installations decides alone, exactly if no foreign line ends in "\r". */
  lemma InstallTwice(conf: string, keep: string -> bool, first: seq<string>, second: seq<string>)
    requires IsBlock(first) && IgnoresCr(keep) && keep("") && NoneSatisfies(first, keep)
    ensures Installed(Installed(conf, keep, first), keep, second) == Installed(conf, keep, second) <==>
              NoCr(Cleaned(conf, keep))
  {
    RemoveAfterInstall(conf, keep, first);
    var a, b, t := Removed(Installed(conf, keep, first), keep), Removed(conf, keep), "\n" + Written(second);
    assert Installed(Installed(conf, keep, first), keep, second) == a + t && Installed(conf, keep, second) == b + t;
    SameTail(a, b, t);
  }

  lemma SameTail(a: string, b: string, t: string)
    ensures a + t == b + t <==> a == b
  {
    if a + t == b + t {
      assert a == (a + t)[..|a|] && b == (b + t)[..|b|];
    }
  }

  // ---------------------------------------------------------------- what readers see after an edit

  lemma FirstCharDropped(l: string, c: char)
    requires c != '\r'
    ensures FirstChar(DropCr(l), c) == if FirstChar(l, c) == |l| then |DropCr(l)| else FirstChar(l, c)
  {
    hide FirstChar;
    if EndsInCr(l) {
      var d := DropCr(l);
      assert l == d + ['\r'];
      var i := FirstChar(l, c);
      if i < |l| {
        assert i < |d| && d[i] == c && d[..i] == l[..i];
        assert d == d[..i] + [c] + d[i + 1..];
        FirstCharAfter(d[..i], c, d[i + 1..]);
      } else {
        assert l[..i] == l && c !in d;
        NoSuchChar(d, c);
      }
    }
  }

  lemma PieceDropped(r: string, c: char)
    requires c != '\r'
    ensures Trim(DropCr(r)[..FirstChar(DropCr(r), c)]) == Trim(r[..FirstChar(r, c)])
  {
    FirstCharDropped(r, c);
    if EndsInCr(r) {
      var i, d := FirstChar(r, c), DropCr(r);
      if i < |r| {
        assert d[..i] == r[..i];
      } else {
        assert r[..i] == d + ['\r'] && d[..|d|] == d;
        TrimSnoc(d, '\r');
      }
    }
  }

  lemma StatusIgnoresCr(l: string, c: char)
    requires c != '\r'
    ensures Trim(SecondPiece(DropCr(l), c)) == Trim(SecondPiece(l, c))
  {
    hide Trim, FirstChar;
    FirstCharDropped(l, c);
    var i := FirstChar(l, c);
    if i < |l| && EndsInCr(l) {
      PieceDropped(l[i + 1..], c);
      assert DropCr(l)[i + 1..] == DropCr(l[i + 1..]);
    }
  }

  lemma StatusInDropped(lines: seq<string>, p: string -> bool, c: char)
    requires IgnoresCr(p) && c != '\r'
    ensures StatusIn(DropCrs(lines), p, c) == StatusIn(lines, p, c)
  {
    FindDropCrs(lines, p);
    if Find(lines, p).Some? {
      StatusIgnoresCr(Find(lines, p).value, c);
    }
  }

  lemma StatusInConcat(a: seq<string>, b: seq<string>, p: string -> bool, c: char)
    ensures StatusIn(a + b, p, c) == if StatusIn(a, p, c).Some? then StatusIn(a, p, c) else StatusIn(b, p, c)
  {
    FindConcat(a, b, p);
  }

  /** The editor owns no line the reader would look at. */
  ghost predicate LeavesAlone(conf: string, keep: string -> bool, p: string -> bool) {
    forall i | 0 <= i < |Split(conf)| && p(Split(conf)[i]) :: keep(Split(conf)[i])
  }

  lemma StatusInPadded(lines: seq<string>, p: string -> bool, c: char)
    requires !p("")
    ensures StatusIn(Padded(lines), p, c) == StatusIn(lines, p, c)
  {
  }

  /** What a reader sees after an installation: the first of the surviving lines, or else of the block. */
  lemma InstallStatus(conf: string, keep: string -> bool, block: seq<string>, p: string -> bool, c: char)
    requires IsBlock(block) && IgnoresCr(p) && c != '\r' && !p("")
    ensures Status(Installed(conf, keep, block), p, c) ==
              if StatusIn(Cleaned(conf, keep), p, c).Some? then StatusIn(Cleaned(conf, keep), p, c)
                  else StatusIn(block, p, c)
  {
    InstalledLines(conf, keep, block);
    hide Installed;
    var ks := Cleaned(conf, keep);
    StatusInConcat(DropCrs(Padded(ks)), block, p, c);
    StatusInDropped(Padded(ks), p, c);
    StatusInPadded(ks, p, c);
  }

  lemma StatusInEmpty(p: string -> bool, c: char)
    requires !p("")
    ensures StatusIn([], p, c) == StatusIn([""], p, c) == None
  {
  }

  lemma StatusInJoined(lines: seq<string>, p: string -> bool, c: char)
    requires AreLines(lines) && IgnoresCr(p) && c != '\r' && !p("")
    ensures Status(Join(lines), p, c) == StatusIn(lines, p, c)
  {
    hide Split, Join, AreLines, IgnoresCr, StatusIn;
    if lines == [] {
      NothingJoined();
    } else {
      var n := |lines| - 1;
      SplitJoin(lines);
      StatusInEmpty(p, c);
      var tail := if lines[n] == "" then [] else [lines[n]];
      StatusInConcat(DropCrs(lines[..n]), tail, p, c);
      StatusInDropped(lines[..n], p, c);
      StatusInConcat(lines[..n], [lines[n]], p, c);
      assert lines[..n] + [lines[n]] == lines;
    }
  }

  /** And after a removal: the first of the surviving lines. */
  lemma RemoveStatus(conf: string, keep: string -> bool, p: string -> bool, c: char)
    requires IgnoresCr(p) && c != '\r' && !p("")
    ensures Status(Removed(conf, keep), p, c) == StatusIn(Cleaned(conf, keep), p, c)
  {
    CleanedAreLines(conf, keep);
    StatusInJoined(Cleaned(conf, keep), p, c);
  }

  lemma {:induction false} FirstSurvives(lines: seq<string>, keep: string -> bool, p: string -> bool)
    ensures Find(lines, p).None? ==> Find(Keep(lines, keep), p).None?
    ensures Find(lines, p).Some? && keep(Find(lines, p).value) ==> Find(Keep(lines, keep), p) == Find(lines, p)
    decreases |lines|
  {
    if lines != [] {
      FirstSurvives(lines[1..], keep, p);
      var more := [lines[0]] + Keep(lines[1..], keep);
      assert more[0] == lines[0] && more[1..] == Keep(lines[1..], keep);
      assert [] + Keep(lines[1..], keep) == Keep(lines[1..], keep);
    }
  }

  /**
   The first line of the reader's kind, if there is one, survives the editor, or the next
   one that does says the same. A reader that takes a missing line for an empty value is
   `lenient`.
   */
  predicate FirstStays(conf: string, keep: string -> bool, p: string -> bool, c: char, lenient: bool) {
    var first, next := Find(Split(conf), p), StatusIn(Cleaned(conf, keep), p, c);
    first.Some? && !keep(first.value) ==>
      next == Some(Trim(SecondPiece(first.value, c)))
          || (lenient && next.None? && Trim(SecondPiece(first.value, c)) == "")
  }

  lemma FirstDecides(conf: string, keep: string -> bool, p: string -> bool, c: char)
    ensures StatusIn(Cleaned(conf, keep), p, c) == Status(conf, p, c) <==> FirstStays(conf, keep, p, c, false)
    ensures StatusIn(Cleaned(conf, keep), p, c).GetOr("") == Status(conf, p, c).GetOr("") <==>
              FirstStays(conf, keep, p, c, true)
  {
    hide Trim, SecondPiece, Split;
    FirstSurvives(Split(conf), keep, p);
  }

  /** An installation that writes no line of the reader's kind leaves it alone exactly if the first line stays. */
  lemma InstallDisturbs(conf: string, keep: string -> bool, block: seq<string>, p: string -> bool, c: char)
    requires IsBlock(block) && IgnoresCr(p) && c != '\r' && !p("") && NoneSatisfies(block, p)
    ensures var after := Status(Installed(conf, keep, block), p, c);
            && (after == Status(conf, p, c) <==> FirstStays(conf, keep, p, c, false))
            && (after.GetOr("") == Status(conf, p, c).GetOr("") <==> FirstStays(conf, keep, p, c, true))
  {
    hide Installed, Status, FirstStays;
    InstallStatus(conf, keep, block, p, c);
    FindNone(block, p);
    FirstDecides(conf, keep, p, c);
  }

  /** So does a removal. */
  lemma RemoveDisturbs(conf: string, keep: string -> bool, p: string -> bool, c: char)
    requires IgnoresCr(p) && c != '\r' && !p("")
    ensures var after := Status(Removed(conf, keep), p, c);
            && (after == Status(conf, p, c) <==> FirstStays(conf, keep, p, c, false))
            && (after.GetOr("") == Status(conf, p, c).GetOr("") <==> FirstStays(conf, keep, p, c, true))
  {
    hide Removed, Status, FirstStays;
    RemoveStatus(conf, keep, p, c);
    FirstDecides(conf, keep, p, c);
  }

  lemma AloneStays(conf: string, keep: string -> bool, p: string -> bool, c: char)
    requires LeavesAlone(conf, keep, p)
    ensures FirstStays(conf, keep, p, c, false)
  {
    FindKept(Split(conf), p, keep);
  }

  /** An installation does not disturb a reader whose lines the editor neither owns nor writes. */
  lemma InstallKeepsStatus(conf: string, keep: string -> bool, block: seq<string>, p: string -> bool, c: char)
    requires IsBlock(block) && IgnoresCr(p) && c != '\r' && !p("")
    requires LeavesAlone(conf, keep, p) && NoneSatisfies(block, p)
    ensures Status(Installed(conf, keep, block), p, c) == Status(conf, p, c)
  {
    AloneStays(conf, keep, p, c);
    InstallDisturbs(conf, keep, block, p, c);
  }

  /** Nor does a removal. */
  lemma RemoveKeepsStatus(conf: string, keep: string -> bool, p: string -> bool, c: char)
    requires IgnoresCr(p) && c != '\r' && !p("") && LeavesAlone(conf, keep, p)
    ensures Status(Removed(conf, keep), p, c) == Status(conf, p, c)
  {
    AloneStays(conf, keep, p, c);
    RemoveDisturbs(conf, keep, p, c);
  }

  /** A reader sees what was installed if the editor drops all older lines of its kind. */
  lemma StatusOfInstalled(conf: string, keep: string -> bool, block: seq<string>, p: string -> bool, c: char)
    requires IsBlock(block) && IgnoresCr(p) && c != '\r' && !p("")
    requires forall l: string :: keep(l) ==> !p(l)
    ensures Status(Installed(conf, keep, block), p, c) == StatusIn(block, p, c)
  {
    InstalledLines(conf, keep, block);
    CleanedAreLines(conf, keep);
    hide Installed;
    var ks := Cleaned(conf, keep);
    FindNone(ks, p);
    StatusInConcat(DropCrs(Padded(ks)), block, p, c);
    StatusInDropped(Padded(ks), p, c);
    StatusInPadded(ks, p, c);
  }

  lemma StatusOfRemoved(conf: string, keep: string -> bool, p: string -> bool, c: char)
    requires IgnoresCr(p) && c != '\r' && !p("")
    requires forall l: string :: keep(l) ==> !p(l)
    ensures Status(Removed(conf, keep), p, c) == None
  {
    CleanedAreLines(conf, keep);
    StatusInJoined(Cleaned(conf, keep), p, c);
    FindNone(Cleaned(conf, keep), p);
  }
}
