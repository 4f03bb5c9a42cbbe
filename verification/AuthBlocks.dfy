/**
 Password protection of paths in nginx (panel/agent/src/routes/nginx.rs): the file of auth
 blocks that `password_protect` appends to, `list_protected` reads, and `remove_protection`
 cuts blocks from by counting braces.
 */
module AuthBlocks {
  import opened Wrappers
  import opened Text
  import opened Lines

  const LOCATION := "location "

  // ---------------------------------------------------------------- writing

  function Head(path: string): string { LOCATION + path + " {" }

  function UserLine(users: string): string { "    auth_basic_user_file " + users + ";" }

  function RealmLine(): string { "    auth_basic \"Restricted\";" }

  function TryLine(): string { "    try_files $uri $uri/ =404;" }

  function Block(path: string, users: string): seq<string> {
    [Head(path), RealmLine(), UserLine(users), TryLine(), "}"]
  }

  /** Lines each followed by a line end. */
  function Terminated(lines: seq<string>): string {
    if lines == [] then "" else lines[0] + "\n" + Terminated(lines[1..])
  }

  predicate IsForbidden(c: char) {
    IsWhitespace(c) || c == ';' || c == '{' || c == '}'
  }

  /** What `password_protect` accepts as a path; an empty one stands for "/". */
  ghost predicate IsPath(path: string) {
    path != "" && path[0] == '/' && forall i | 0 <= i < |path| :: !IsForbidden(path[i])
  }

  /** The name of the user file: built from a valid domain, it has none of these characters either. */
  ghost predicate IsUserFile(users: string) {
    forall i | 0 <= i < |users| :: !IsForbidden(users[i])
  }

  // ---------------------------------------------------------------- the brace count

  function Count(l: string, c: char): nat {
    if l == "" then 0 else (if l[0] == c then 1 else 0) + Count(l[1..], c)
  }

  /** The two tests of the source spell the same string. */
  predicate Opens(l: string, path: string) {
    Contains(l, LOCATION + path + " ")
  }

  /** The lines that stay, from a line on at which `skip` and `count` are what the loop has. */
  function Kept(lines: seq<string>, path: string, skip: bool, count: int): seq<string> {
    if lines == [] then []
    else
      var l := lines[0];
      var hit := Opens(l, path);
      if skip || hit then
        var c := (if hit then 0 else count) + Count(l, '{') - Count(l, '}');
        Kept(lines[1..], path, !(c <= 0 && '}' in l), c)
      else [l] + Kept(lines[1..], path, false, count)
  }

  function RemovedFrom(content: string, path: string): string {
    Terminated(Kept(Split(content), path, false, 0))
  }

  /** The loop of `remove_protection`. */
  method RemoveProtection(content: string, path: string) returns (cleaned: string)
    ensures cleaned == RemovedFrom(content, path)
  {
    hide Split, Opens, Count;
    var lines := Split(content);
    var skip, braceCount := false, 0;
    cleaned := "";
    var i := 0;
    while i < |lines|
      invariant 0 <= i <= |lines|
      invariant RemovedFrom(content, path) == cleaned + Terminated(Kept(lines[i..], path, skip, braceCount))
    {
      var line := lines[i];
      assert lines[i..][1..] == lines[i + 1..];
      i := i + 1;
      if Opens(line, path) {
        skip, braceCount := true, 0;
      }
      if skip {
        braceCount := braceCount + Count(line, '{');
        braceCount := braceCount - Count(line, '}');
        if braceCount <= 0 && '}' in line {
          skip := false;
        }
        continue;
      }
      TerminatedHead(line, Kept(lines[i..], path, false, braceCount), cleaned);
      cleaned := cleaned + line + "\n";
    }
  }

  lemma TerminatedHead(l: string, rest: seq<string>, before: string)
    ensures before + Terminated([l] + rest) == before + l + "\n" + Terminated(rest)
  {
    assert ([l] + rest)[1..] == rest;
  }

  /** A block to the letter, and the lines that open one for a path. */
  lemma BlockSpelled(path: string, users: string, l: string)
    ensures Block(path, users) == ["location " + path + " {", "    auth_basic \"Restricted\";",
                                   "    auth_basic_user_file " + users + ";", "    try_files $uri $uri/ =404;", "}"]
    ensures Opens(l, path) <==> Embeds(l, "location " + path + " ")
  {
    ContainsEmbeds(l, LOCATION + path + " ");
  }

  // ---------------------------------------------------------------- files of blocks

  function BlockLines(paths: seq<string>, users: string): seq<string> {
    if paths == [] then [] else Block(paths[0], users) + BlockLines(paths[1..], users)
  }

  /** The file after these paths were protected, in this order. */
  function FileOf(paths: seq<string>, users: string): string {
    Terminated(BlockLines(paths, users))
  }

  function Without(paths: seq<string>, path: string): seq<string> {
    if paths == [] then [] else (if paths[0] == path then [] else [paths[0]]) + Without(paths[1..], path)
  }

  ghost predicate ArePaths(paths: seq<string>) {
    forall i | 0 <= i < |paths| :: IsPath(paths[i])
  }

  // ---------------------------------------------------------------- which lines open which block

  lemma LongerOccurs(l: string, path: string, j: nat)
    requires OccursAt(l, LOCATION + path + " ", j)
    ensures OccursAt(l, "location" + " ", j)
  {
    var o := l[j..j + |LOCATION + path + " "|];
    assert o[..9] == LOCATION == "location" + " ";
    assert l[j..j + 9] == o[..9];
  }

  lemma HeadShape(own: string)
    ensures var l, n := Head(own), |own|;
            && |l| == 11 + n && l[..9] == LOCATION && l[8] == ' ' && l[9..9 + n] == own && l[9 + n] == ' '
            && l[10 + n] == '{'
  {
  }

  lemma NoOtherLocation(own: string, j: nat)
    requires IsPath(own) && 0 < j && j != |own| + 1
    ensures !OccursAt(Head(own), "location" + " ", j)
  {
    var l, n := Head(own), |own|;
    HeadShape(own);
    if j <= 8 {
      SpacedApart(l, "location", j, 8);
    } else if j + 8 < 9 + n {
      assert l[j + 8] == own[j - 1];
      NotFollowedBySpace(l, "location", j);
    } else if j + 8 > 9 + n && j <= 9 + n {
      SpacedApart(l, "location", j, 9 + n);
    }
  }

  /** The head of a block opens the block of its own path only. */
  lemma HeadOpens(own: string, path: string)
    requires IsPath(own) && IsPath(path)
    ensures Opens(Head(own), path) <==> path == own
  {
    hide Head;
    var l, sub := Head(own), LOCATION + path + " ";
    HeadShape(own);
    if Contains(l, sub) {
      var j: nat :| j <= |l| && OccursAt(l, sub, j);
      LongerOccurs(l, path, j);
      if j > 0 {
        NoOtherLocation(own, j);
      } else {
        SameFirst(l, own, path);
      }
    }
    if path == own {
      assert l[0..|sub|] == l[..9] + l[9..9 + |own|] + [l[9 + |own|]];
      assert OccursAt(l, sub, 0);
    }
  }

  lemma SameFirst(l: string, own: string, path: string)
    requires |l| == 11 + |own| && l[9..9 + |own|] == own && l[9 + |own|] == ' '
    requires IsPath(own) && IsPath(path) && OccursAt(l, LOCATION + path + " ", 0)
    ensures own == path
  {
    var s, sub := l[9..], LOCATION + path + " ";
    assert s[..|path| + 1] == l[0..|sub|][9..] == path + [' '];
    assert s == own + [' '] + s[|own| + 1..] && s == path + [' '] + s[|path| + 1..];
    FirstCharAfter(own, ' ', s[|own| + 1..]);
    FirstCharAfter(path, ' ', s[|path| + 1..]);
  }

  lemma OthersOpenNothing(path: string)
    ensures !Opens(RealmLine(), path) && !Opens(TryLine(), path) && !Opens("}", path)
  {
    var sub := LOCATION + path + " ";
    assert sub[0] == 'l' && sub[1] == 'o';
    PartNeedsChars(RealmLine(), sub, 0);
    PartNeedsChars(TryLine(), sub, 1);
    PartNeedsChars("}", sub, 0);
  }

  lemma NoLocationInUserLine(users: string, j: nat)
    requires IsUserFile(users)
    ensures !OccursAt(UserLine(users), "location" + " ", j)
  {
    var l, n := UserLine(users), |users|;
    var start := "    auth_basic_user_file ";
    assert |start| == 25 && start[16] == 's' && start[24] == ' ';
    assert l[..25] == start && |l| == 26 + n;
    if j + 8 < |l| {
      if j < 4 {
        assert l[j] == start[j] == ' ';
        SpacedApart(l, "location", j, j);
      } else if j == 16 {
        assert l[16] == start[16];
        OtherStart(l, "location", j);
      } else if j + 8 < 25 {
        assert l[j + 8] == start[j + 8] && forall i | 4 <= i < 24 :: start[i] != ' ';
        NotFollowedBySpace(l, "location", j);
      } else {
        assert l[j + 8] == (users + ";")[j + 8 - 25];
        NotFollowedBySpace(l, "location", j);
      }
    }
  }

  lemma UserLineOpensNothing(users: string, path: string)
    requires IsUserFile(users)
    ensures !Opens(UserLine(users), path)
  {
    hide UserLine;
    var l, sub := UserLine(users), LOCATION + path + " ";
    forall j: nat | j <= |l| ensures !OccursAt(l, sub, j) {
      NoLocationInUserLine(users, j);
      if OccursAt(l, sub, j) {
        LongerOccurs(l, path, j);
      }
    }
  }

  // ---------------------------------------------------------------- counting

  lemma {:induction false} CountConcat(a: string, b: string, c: char)
    ensures Count(a + b, c) == Count(a, c) + Count(b, c)
    decreases |a|
  {
    if a == "" {
      assert a + b == b;
    } else {
      assert (a + b)[1..] == a[1..] + b;
      CountConcat(a[1..], b, c);
    }
  }

  lemma {:induction false} CountNone(l: string, c: char)
    requires c !in l
    ensures Count(l, c) == 0
    decreases |l|
  {
    if l != "" {
      CountNone(l[1..], c);
    }
  }

  lemma HeadCounts(path: string)
    requires IsPath(path)
    ensures Count(Head(path), '{') == 1 && Count(Head(path), '}') == 0 && '}' !in Head(path)
  {
    var start := LOCATION + path;
    assert '{' !in start && '}' !in start;
    CountNone(start, '{');
    CountConcat(start, " {", '{');
    assert " {"[1..] == "{" && "{"[1..] == "";
    assert Count("{", '{') == 1;
    assert Head(path) == start + " {";
    CountNone(Head(path), '}');
  }

  lemma PlainCounts(l: string)
    requires '{' !in l && '}' !in l
    ensures Count(l, '{') == 0 && Count(l, '}') == 0
  {
    CountNone(l, '{');
    CountNone(l, '}');
  }

  predicate NoBraces(l: string) {
    '{' !in l && '}' !in l
  }

  lemma UserLineHasNoBraces(users: string)
    requires IsUserFile(users)
    ensures NoBraces(UserLine(users))
  {
    var start := "    auth_basic_user_file ";
    assert NoBraces(start);
    assert forall i | 0 <= i < |users| :: users[i] != '{' && users[i] != '}';
  }

  lemma BodyHasNoBraces(users: string)
    requires IsUserFile(users)
    ensures NoBraces(RealmLine()) && NoBraces(UserLine(users)) && NoBraces(TryLine())
  {
    hide UserLine, IsUserFile;
    UserLineHasNoBraces(users);
  }

  lemma BodyCounts(users: string)
    requires IsUserFile(users)
    ensures forall l | l in {RealmLine(), UserLine(users), TryLine()} ::
              Count(l, '{') == 0 && Count(l, '}') == 0 && '}' !in l
  {
    hide RealmLine, UserLine, TryLine, Count, IsUserFile;
    BodyHasNoBraces(users);
    PlainCounts(RealmLine());
    PlainCounts(UserLine(users));
    PlainCounts(TryLine());
  }

  lemma BraceCounts()
    ensures Count("}", '{') == 0 && Count("}", '}') == 1 && '}' in "}"
  {
    assert "}"[1..] == "";
  }

  // ---------------------------------------------------------------- one block

  lemma KeptUnfold(l: string, rest: seq<string>, path: string, skip: bool, count: int)
    ensures Kept([l] + rest, path, skip, count)
         == if !skip && !Opens(l, path) then [l] + Kept(rest, path, false, count)
            else
              var c := (if Opens(l, path) then 0 else count) + Count(l, '{') - Count(l, '}');
              Kept(rest, path, !(c <= 0 && '}' in l), c)
  {
    assert ([l] + rest)[1..] == rest;
  }

  lemma BlockUnfold(path: string, users: string, rest: seq<string>)
    ensures Block(path, users) + rest ==
              [Head(path)] + ([RealmLine()] + ([UserLine(users)] + ([TryLine()] + (["}"] + rest))))
  {
  }

  /** Lines that open nothing pass. */
  lemma OtherBlockStays(own: string, users: string, path: string, rest: seq<string>, count: int)
    requires IsPath(own) && IsPath(path) && own != path && IsUserFile(users)
    ensures Kept(Block(own, users) + rest, path, false, count) == Block(own, users) + Kept(rest, path, false, count)
  {
    hide Kept, Opens, Head, RealmLine, UserLine, TryLine, Count, IsPath, IsUserFile;
    HeadOpens(own, path);
    OthersOpenNothing(path);
    UserLineOpensNothing(users, path);
    BlockUnfold(own, users, rest);
    var e := ["}"] + rest;
    var d := [TryLine()] + e;
    var c := [UserLine(users)] + d;
    var b := [RealmLine()] + c;
    KeptUnfold(Head(own), b, path, false, count);
    KeptUnfold(RealmLine(), c, path, false, count);
    KeptUnfold(UserLine(users), d, path, false, count);
    KeptUnfold(TryLine(), e, path, false, count);
    KeptUnfold("}", rest, path, false, count);
    BlockUnfold(own, users, Kept(rest, path, false, count));
  }

  /** The block of the path goes, from its head to its closing brace. */
  lemma OwnBlockGoes(path: string, users: string, rest: seq<string>, count: int)
    requires IsPath(path) && IsUserFile(users)
    ensures Kept(Block(path, users) + rest, path, false, count) == Kept(rest, path, false, 0)
  {
    hide Kept, Opens, Head, RealmLine, UserLine, TryLine, Count, IsPath, IsUserFile;
    HeadOpens(path, path);
    OthersOpenNothing(path);
    UserLineOpensNothing(users, path);
    HeadCounts(path);
    BodyCounts(users);
    BraceCounts();
    BlockUnfold(path, users, rest);
    var e := ["}"] + rest;
    var d := [TryLine()] + e;
    var c := [UserLine(users)] + d;
    var b := [RealmLine()] + c;
    KeptUnfold(Head(path), b, path, false, count);
    KeptUnfold(RealmLine(), c, path, true, 1);
    KeptUnfold(UserLine(users), d, path, true, 1);
    KeptUnfold(TryLine(), e, path, true, 1);
    KeptUnfold("}", rest, path, true, 1);
  }

  // ---------------------------------------------------------------- the whole file

  lemma {:induction false} KeptBlocks(paths: seq<string>, users: string, path: string, count: int)
    requires ArePaths(paths) && IsPath(path) && IsUserFile(users)
    ensures Kept(BlockLines(paths, users), path, false, count) == BlockLines(Without(paths, path), users)
    decreases |paths|
  {
    hide Block, IsPath, IsUserFile, Opens, Count;
    if paths != [] {
      var rest := BlockLines(paths[1..], users);
      if paths[0] == path {
        OwnBlockGoes(path, users, rest, count);
        KeptBlocks(paths[1..], users, path, 0);
        assert [] + Without(paths[1..], path) == Without(paths[1..], path);
      } else {
        OtherBlockStays(paths[0], users, path, rest, count);
        KeptBlocks(paths[1..], users, path, count);
        var more := [paths[0]] + Without(paths[1..], path);
        assert more[0] == paths[0] && more[1..] == Without(paths[1..], path);
      }
    }
  }

  lemma {:induction false} SplitTerminated(lines: seq<string>)
    requires AreLines(lines)
    ensures Split(Terminated(lines)) == DropCrs(lines) && EndsWithBreak(Terminated(lines))
    decreases |lines|
  {
    hide Split, DropCr;
    if lines == [] {
      NothingSplit();
    } else {
      assert IsLine(lines[0]);
      SplitFirst(lines[0], Terminated(lines[1..]));
      SplitTerminated(lines[1..]);
    }
  }

  lemma BlockLinesAreLines(path: string, users: string)
    requires IsPath(path) && IsUserFile(users)
    ensures AreLines(Block(path, users)) && NoCr(Block(path, users))
  {
    hide Head, RealmLine, UserLine, TryLine, IsLine, EndsInCr;
    HeadEnds(path);
    UserLineEnds(users);
    ConstantLines();
  }

  lemma BreakForbidden()
    ensures IsForbidden('\n') && IsForbidden('\r')
  {
  }

  lemma HeadEnds(path: string)
    requires IsPath(path)
    ensures IsLine(Head(path)) && !EndsInCr(Head(path))
  {
    BreakForbidden();
    assert Head(path)[|Head(path)| - 1] == '{';
  }

  lemma UserLineEnds(users: string)
    requires IsUserFile(users)
    ensures IsLine(UserLine(users)) && !EndsInCr(UserLine(users))
  {
    BreakForbidden();
    assert UserLine(users)[|UserLine(users)| - 1] == ';';
  }

  lemma ConstantLines()
    ensures IsLine(RealmLine()) && !EndsInCr(RealmLine()) && IsLine(TryLine()) && !EndsInCr(TryLine())
    ensures IsLine("}") && !EndsInCr("}")
  {
  }

  lemma {:induction false} AllBlockLines(paths: seq<string>, users: string)
    requires ArePaths(paths) && IsUserFile(users)
    ensures AreLines(BlockLines(paths, users)) && NoCr(BlockLines(paths, users))
    decreases |paths|
  {
    hide Block, IsPath, IsUserFile, IsLine, EndsInCr;
    if paths != [] {
      BlockLinesAreLines(paths[0], users);
      AllBlockLines(paths[1..], users);
    }
  }

  lemma FileLines(paths: seq<string>, users: string)
    requires ArePaths(paths) && IsUserFile(users)
    ensures Split(FileOf(paths, users)) == BlockLines(paths, users) && EndsWithBreak(FileOf(paths, users))
  {
    AllBlockLines(paths, users);
    SplitTerminated(BlockLines(paths, users));
    DropCrsNothing(BlockLines(paths, users));
  }

  /** From a file of blocks, `remove_protection` leaves exactly the blocks of the other paths, in order. */
  lemma RemovesExactly(paths: seq<string>, users: string, path: string)
    requires ArePaths(paths) && IsPath(path) && IsUserFile(users)
    ensures RemovedFrom(FileOf(paths, users), path) == FileOf(Without(paths, path), users)
  {
    FileLines(paths, users);
    KeptBlocks(paths, users, path, 0);
  }

  // ---------------------------------------------------------------- protecting a path

  lemma NotOverBreak(a: string, b: string, sub: string, j: nat)
    requires '\n' !in sub && j <= |a| < j + |sub|
    ensures !OccursAt(a + "\n" + b, sub, j)
  {
    var s, n := a + "\n" + b, |a|;
    if j + |sub| <= |s| {
      assert s[j..j + |sub|][n - j] == s[n] == '\n';
    }
  }

  lemma AcrossBreak(a: string, b: string, sub: string, j: nat)
    requires '\n' !in sub && OccursAt(a + "\n" + b, sub, j)
    ensures Contains(a, sub) || Contains(b, sub)
  {
    var s, n := a + "\n" + b, |a|;
    if j + |sub| <= n {
      assert a[j..j + |sub|] == s[j..j + |sub|];
      assert OccursAt(a, sub, j);
    } else if j <= n {
      NotOverBreak(a, b, sub, j);
    } else {
      assert b[j - n - 1..j - n - 1 + |sub|] == s[j..j + |sub|];
      assert OccursAt(b, sub, j - n - 1);
    }
  }

  lemma ContainsSplit(a: string, b: string, sub: string)
    requires '\n' !in sub
    ensures Contains(a + "\n" + b, sub) <==> Contains(a, sub) || Contains(b, sub)
  {
    var s := a + "\n" + b;
    if Contains(s, sub) {
      var j: nat :| j <= |s| && OccursAt(s, sub, j);
      AcrossBreak(a, b, sub, j);
    }
    if Contains(a, sub) {
      ContainsInContext("", a, "\n" + b, sub);
      assert "" + a + ("\n" + b) == s;
    }
    if Contains(b, sub) {
      ContainsInContext(a + "\n", b, "", sub);
      assert a + "\n" + b + "" == s;
    }
  }

  predicate AnyOpens(lines: seq<string>, path: string) {
    lines != [] && (Opens(lines[0], path) || AnyOpens(lines[1..], path))
  }

  lemma {:induction false} OpensInLines(lines: seq<string>, path: string)
    requires '\n' !in path
    ensures Opens(Terminated(lines), path) <==> AnyOpens(lines, path)
    decreases |lines|
  {
    hide Contains;
    var sub := LOCATION + path + " ";
    if lines == [] {
      NothingInNothing(sub);
    } else {
      assert '\n' !in sub;
      ContainsSplit(lines[0], Terminated(lines[1..]), sub);
      OpensInLines(lines[1..], path);
    }
  }

  lemma NothingInNothing(sub: string)
    requires sub != ""
    ensures !Contains("", sub)
  {
    assert forall i: nat | i <= 0 :: !OccursAt("", sub, i);
  }

  lemma {:induction false} AnyOpensConcat(a: seq<string>, b: seq<string>, path: string)
    ensures AnyOpens(a + b, path) <==> AnyOpens(a, path) || AnyOpens(b, path)
    decreases |a|
  {
    hide Opens;
    if a == [] {
      assert a + b == b;
    } else {
      assert (a + b)[1..] == a[1..] + b;
      AnyOpensConcat(a[1..], b, path);
    }
  }

  lemma BlockOpens(own: string, users: string, path: string)
    requires IsPath(own) && IsPath(path) && IsUserFile(users)
    ensures AnyOpens(Block(own, users), path) <==> path == own
  {
    hide AnyOpens, Opens, Head, RealmLine, UserLine, TryLine, IsPath, IsUserFile;
    HeadOpens(own, path);
    OthersOpenNothing(path);
    UserLineOpensNothing(users, path);
    var d, c := [TryLine(), "}"], [UserLine(users), TryLine(), "}"];
    var b := [RealmLine(), UserLine(users), TryLine(), "}"];
    assert ["}"][1..] == [] && d[1..] == ["}"] && c[1..] == d && b[1..] == c && Block(own, users)[1..] == b;
    AnyOpensUnfold([], path);
    AnyOpensUnfold(["}"], path);
    AnyOpensUnfold(d, path);
    AnyOpensUnfold(c, path);
    AnyOpensUnfold(b, path);
    AnyOpensUnfold(Block(own, users), path);
  }

  lemma AnyOpensUnfold(lines: seq<string>, path: string)
    ensures AnyOpens(lines, path) <==> lines != [] && (Opens(lines[0], path) || AnyOpens(lines[1..], path))
  {
  }

  lemma {:induction false} OpenedInBlocks(paths: seq<string>, users: string, path: string)
    requires ArePaths(paths) && IsPath(path) && IsUserFile(users)
    ensures AnyOpens(BlockLines(paths, users), path) <==> path in paths
    decreases |paths|
  {
    hide IsPath, IsUserFile, Block;
    if paths != [] {
      BlockOpens(paths[0], users, path);
      OpenedInBlocks(paths[1..], users, path);
      AnyOpensConcat(Block(paths[0], users), BlockLines(paths[1..], users), path);
      assert paths == [paths[0]] + paths[1..];
    }
  }

  lemma FileMentions(paths: seq<string>, users: string, path: string)
    requires ArePaths(paths) && IsPath(path) && IsUserFile(users)
    ensures Opens(FileOf(paths, users), path) <==> path in paths
  {
    hide BlockLines, Opens;
    BreakForbidden();
    OpensInLines(BlockLines(paths, users), path);
    OpenedInBlocks(paths, users, path);
  }

  lemma {:induction false} TerminatedConcat(a: seq<string>, b: seq<string>)
    ensures Terminated(a + b) == Terminated(a) + Terminated(b)
    decreases |a|
  {
    if a == [] {
      assert a + b == b;
    } else {
      assert (a + b)[1..] == a[1..] + b;
      TerminatedConcat(a[1..], b);
    }
  }

  lemma {:induction false} BlocksAppended(paths: seq<string>, users: string, path: string)
    ensures BlockLines(paths + [path], users) == BlockLines(paths, users) + Block(path, users)
    decreases |paths|
  {
    hide Block;
    if paths == [] {
      assert [] + [path] == [path] && BlockLines([path], users) == Block(path, users) + BlockLines([], users);
    } else {
      assert (paths + [path])[1..] == paths[1..] + [path];
      BlocksAppended(paths[1..], users, path);
    }
  }

  lemma FileAppended(paths: seq<string>, users: string, path: string)
    ensures FileOf(paths + [path], users) == FileOf(paths, users) + Terminated(Block(path, users))
  {
    BlocksAppended(paths, users, path);
    TerminatedConcat(BlockLines(paths, users), Block(path, users));
  }

  // ---------------------------------------------------------------- listing

  /** The path `list_protected` reads from a line. */
  function ListedPath(l: string): Option<string> {
    match PieceAfter(l, LOCATION)
    case None => None
    case Some(piece) => Some(piece[..FirstChar(piece, ' ')])
  }

  ghost predicate EndsInLocation(path: string) {
    |path| >= 8 && path[|path| - 8..] == "location"
  }

  lemma LocationInRest(path: string, j: nat)
    requires IsPath(path)
    ensures OccursAt(path + " {", LOCATION, j) <==> EndsInLocation(path) && j + 8 == |path|
  {
    var s, n := path + " {", |path|;
    assert "location" + " " == LOCATION;
    if j + 9 <= |s| {
      if j + 8 < n {
        assert s[j + 8] == path[j + 8];
        NotFollowedBySpace(s, "location", j);
      } else if j + 8 == n {
        assert s[j..j + 9] == path[j..] + [' '] && path[j..] == path[n - 8..];
        assert (path[j..] + [' '])[..8] == path[j..] && LOCATION[..8] == "location";
      } else {
        SpacedApart(s, "location", j, n);
      }
    }
  }

  lemma LocationsInRest(path: string)
    requires IsPath(path)
    ensures var rest := path + " {";
            if EndsInLocation(path) then Contains(rest, LOCATION) && IndexOf(rest, LOCATION) == |path| - 8
            else !Contains(rest, LOCATION)
  {
    hide IsPath, OccursAt, EndsInLocation;
    var rest := path + " {";
    forall j: nat ensures OccursAt(rest, LOCATION, j) <==> EndsInLocation(path) && j + 8 == |path| {
      LocationInRest(path, j);
    }
    if EndsInLocation(path) {
      assert |path| >= 8 by { LongEnough(path); }
      IndexIs(rest, LOCATION, |path| - 8);
    }
  }

  lemma LongEnough(path: string)
    requires EndsInLocation(path)
    ensures |path| >= 8
  {
  }

  /** What the reader takes from the head of a block is what it takes from the rest behind "location". */
  lemma ListedFromRest(path: string)
    requires IsPath(path)
    ensures Head(path)[9..] == path + " {" && Contains(Head(path), LOCATION) && IndexOf(Head(path), LOCATION) == 0
  {
    hide IsPath;
    HeadShape(path);
    assert OccursAt(Head(path), LOCATION, 0);
    IndexIs(Head(path), LOCATION, 0);
  }

  /** A protected path is listed as it is exactly if it does not end in "location". */
  lemma ListedExactly(path: string)
    requires IsPath(path)
    ensures ListedPath(Head(path)) == Some(path) <==> !EndsInLocation(path)
  {
    hide FirstChar, Head, IndexOf, Contains;
    ListedFromRest(path);
    LocationsInRest(path);
    var rest := path + " {";
    if EndsInLocation(path) {
      assert |rest[..|path| - 8]| < |path|;
    } else {
      PieceBeforeSpace(rest, path);
    }
  }

  // ---------------------------------------------------------------- the file as the routes change it

  /** The auth file of one site. */
  class AuthFile {
    var content: string

    constructor ()
      ensures content == "" && forall users :: content == FileOf([], users)
    {
      content := "";
    }

    /** The last part of `password_protect`: a path that has a block keeps it; a failed write goes unnoticed. */
    method Protect(path: string, users: string, written: bool)
      requires IsPath(path) && IsUserFile(users)
      modifies this
      ensures content == if Opens(old(content), path) || !written then old(content)
                else old(content) + Terminated(Block(path, users))
      ensures written ==> forall paths | ArePaths(paths) && old(content) == FileOf(paths, users) ::
                content == FileOf(if path in paths then paths else paths + [path], users)
    {
      hide Opens, FileOf, Terminated, Block, IsPath, IsUserFile;
      forall paths | ArePaths(paths) && content == FileOf(paths, users)
        ensures Opens(content, path) <==> path in paths
        ensures FileOf(paths + [path], users) == content + Terminated(Block(path, users))
      {
        FileMentions(paths, users, path);
        FileAppended(paths, users, path);
      }
      if !Opens(content, path) && written {
        content := content + Terminated(Block(path, users));
      }
    }

    method Unprotect(path: string, written: bool)
      modifies this
      ensures content == if written then RemovedFrom(old(content), path) else old(content)
      ensures written ==> forall paths, users | ArePaths(paths) && IsPath(path) && IsUserFile(users)
                && old(content) == FileOf(paths, users) ::
                content == FileOf(Without(paths, path), users)
    {
      hide FileOf, RemovedFrom, IsPath, IsUserFile;
      forall paths, users | ArePaths(paths) && IsPath(path) && IsUserFile(users) && content == FileOf(paths, users)
        ensures RemovedFrom(content, path) == FileOf(Without(paths, path), users)
      {
        RemovesExactly(paths, users, path);
      }
      var cleaned := RemoveProtection(content, path);
      if written {
        content := cleaned;
      }
    }
  }
}
