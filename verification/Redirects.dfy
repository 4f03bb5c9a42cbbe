/**
 The redirect rules of a site (panel/agent/src/routes/nginx.rs): the writer `add_redirect`, the
 reader `list_redirects` and the remover `remove_redirect` of one file.
 */
module Redirects {
  import opened Wrappers
  import opened Text
  import opened Lines

  datatype Rule = Rule(source: string, target: string, kind: string)

  // ---------------------------------------------------------------- writing

  predicate IsForbidden(c: char) {
    c == ';' || c == '{' || c == '}' || c == '\n' || c == '\r'
  }

  /** What `add_redirect` accepts; whitespace is refused in the source but not in the target. */
  predicate IsValid(r: Rule) {
    && r.source != "" && r.target != "" && r.kind in {"301", "302"}
    && r.source[0] == '/'
    && (forall i | 0 <= i < |r.source| :: !IsWhitespace(r.source[i]) && !IsForbidden(r.source[i]))
    && (forall i | 0 <= i < |r.target| :: !IsForbidden(r.target[i]))
  }

  const LOCATION := "location = "
  const RETURN := "return "

  function RuleLine(r: Rule): string {
    LOCATION + r.source + " { " + RETURN + r.kind + " " + r.target + "; }"
  }

  function Added(content: string, r: Rule): string {
    content + RuleLine(r) + "\n"
  }

  // ---------------------------------------------------------------- reading

  /** `trim_end_matches(';')`. */
  function TrimSemicolons(s: string): (t: string)
    ensures t <= s
  {
    if s != "" && s[|s| - 1] == ';' then TrimSemicolons(s[..|s| - 1]) else s
  }

  function ParseRule(l: string): Option<Rule> {
    match PieceAfter(l, LOCATION)
    case None => None
    case Some(head) =>
      match PieceAfter(l, RETURN)
      case None => None
      case Some(tail) =>
        var words := Words(tail);
        if |words| < 2 then None
        else Some(Rule(head[..FirstChar(head, ' ')], TrimSemicolons(words[1]), words[0]))
  }

  function RuleIn(l: string): seq<Rule> {
    if ParseRule(l).Some? then [ParseRule(l).value] else []
  }

  function RulesIn(lines: seq<string>): seq<Rule> {
    if lines == [] then [] else RuleIn(lines[0]) + RulesIn(lines[1..])
  }

  /** `list_redirects`; the filter on "return " is part of `ParseRule`, which needs that piece. */
  function ListRedirects(content: string): seq<Rule> {
    RulesIn(Split(content))
  }

  // ---------------------------------------------------------------- removing

  /** The lines `remove_redirect` lets stay. */
  function Spares(source: string): string -> bool {
    l => !Contains(l, LOCATION + source + " ")
  }

  function RemovedFrom(content: string, source: string): string {
    Written(Keep(Split(content), Spares(source)))
  }

  /** A rule to the letter, and the lines a removal takes away. */
  lemma LinesSpelled(r: Rule, source: string, l: string)
    ensures RuleLine(r) == "location = " + r.source + " { return " + r.kind + " " + r.target + "; }"
    ensures Spares(source)(l) <==> !Embeds(l, "location = " + source + " ")
  {
    assert " { " + RETURN == " { return ";
    assert RuleLine(r) == LOCATION + r.source + (" { " + RETURN) + r.kind + " " + r.target + "; }";
    ContainsEmbeds(l, LOCATION + source + " ");
  }

  /** The rules that are accepted. */
  lemma ValidExactly(r: Rule)
    ensures IsValid(r) <==>
            && Begins(r.source, "/") && r.target != "" && (r.kind == "301" || r.kind == "302")
            && (forall c | c in ";{}\n\r" :: c !in r.source && c !in r.target)
            && (forall c | c in r.source :: !IsWhitespace(c))
  {
    if r.source != "" && r.source[0] == '/' {
      assert r.source == "/" + r.source[1..];
    }
    assert forall c :: IsForbidden(c) <==> c in ";{}\n\r";
    assert forall i | 0 <= i < |r.source| :: r.source[i] in r.source;
    assert forall i | 0 <= i < |r.target| :: r.target[i] in r.target;
  }

  // ---------------------------------------------------------------- one rule, read back

  ghost predicate EndsInReturn(source: string) {
    |source| >= 6 && source[|source| - 6..] == "return"
  }

  /** The shape of a line up to "return ": where its spaces are. */
  ghost predicate Headed(l: string, source: string) {
    var n := |source|;
    && |l| >= 21 + n && l[..11] == LOCATION && l[11..11 + n] == source
    && l[11 + n] == ' ' && l[12 + n] == '{' && l[13 + n] == ' ' && l[14 + n..21 + n] == RETURN
    && source != "" && source[0] == '/' && NoWhite(source)
  }

  lemma RuleLineHeaded(r: Rule)
    requires IsValid(r)
    ensures Headed(RuleLine(r), r.source)
    ensures RuleLine(r)[21 + |r.source|..] == r.kind + " " + r.target + "; }"
  {
    hide RuleLine;
    var l, n, tail := RuleLine(r), |r.source|, r.kind + " " + r.target + "; }";
    assert l == LOCATION + r.source + " { " + RETURN + tail by {
      LineAndTail(r);
    }
    assert l[..11] == LOCATION && l[11..11 + n] == r.source && l[14 + n..21 + n] == RETURN && l[21 + n..] == tail;
  }

  lemma LineAndTail(r: Rule)
    ensures RuleLine(r) == LOCATION + r.source + " { " + RETURN + (r.kind + " " + r.target + "; }")
  {
  }

  lemma TailOfSource(l: string, source: string, j: nat)
    requires Headed(l, source) && j + 6 == 11 + |source| && j >= 11
    ensures OccursAt(l, "return" + " ", j) <==> EndsInReturn(source)
  {
    var n := |source|;
    assert l[j..j + 6] == l[11..11 + n][n - 6..] == source[n - 6..];
    assert l[j..j + 7] == l[j..j + 6] + [l[j + 6]];
    assert ("return" + " ")[..6] == "return";
  }

  /** Before the rule's own "return ", one can occur only where the source ends in "return". */
  lemma ReturnBefore(l: string, source: string, j: nat)
    requires Headed(l, source) && j < 14 + |source|
    ensures OccursAt(l, "return" + " ", j) <==> j + 6 == 11 + |source| && EndsInReturn(source)
  {
    var n := |source|;
    assert l[2] == LOCATION[2] == 'c' && l[6] == LOCATION[6] == 'o' && l[7] == LOCATION[7] == 'n';
    assert l[8] == LOCATION[8] == ' ' && l[10] == LOCATION[10] == ' ';
    if j <= 1 {
      NotFollowedBySpace(l, "return", j);
    } else if j == 2 {
      OtherStart(l, "return", j);
    } else if j <= 8 {
      SpacedApart(l, "return", j, 8);
    } else if j <= 10 {
      SpacedApart(l, "return", j, 10);
    } else if j + 6 < 11 + n {
      assert l[j + 6] == source[j - 5];
      NotFollowedBySpace(l, "return", j);
    } else if j + 6 == 11 + n {
      TailOfSource(l, source, j);
    } else if j <= 11 + n {
      SpacedApart(l, "return", j, 11 + n);
    } else {
      SpacedApart(l, "return", j, 13 + n);
    }
  }

  /** The piece behind the first "return ", as `split` cuts it. */
  lemma ReturnAt(l: string, source: string)
    requires Headed(l, source)
    ensures var n := |source|;
            Contains(l, RETURN) && IndexOf(l, RETURN) == if EndsInReturn(source) then 5 + n else 14 + n
  {
    var n := |source|;
    assert "return" + " " == RETURN;
    forall j: nat | j < 14 + n
      ensures OccursAt(l, RETURN, j) <==> j + 6 == 11 + n && EndsInReturn(source)
    {
      ReturnBefore(l, source, j);
    }
    IndexIs(l, RETURN, if EndsInReturn(source) then 5 + n else 14 + n);
  }

  /** In the source's place no "location = " begins again. */
  lemma SourceIsFirst(rest: string, source: string)
    requires |rest| > |source| + 1 && rest[..|source|] == source && rest[|source|] == ' ' && rest[|source| + 1] == '{'
    requires NoWhite(source)
    ensures var piece := if Contains(rest, LOCATION) then rest[..IndexOf(rest, LOCATION)] else rest;
            piece[..FirstChar(piece, ' ')] == source
  {
    var n := |source|;
    if Contains(rest, LOCATION) {
      var k := IndexOf(rest, LOCATION);
      LocationAfter(rest, source, k);
      PieceBeforeSpace(rest[..k], source);
    } else {
      PieceBeforeSpace(rest, source);
    }
  }

  lemma NoLocationAt(rest: string, source: string, k: nat)
    requires |rest| > |source| + 1 && rest[..|source|] == source && rest[|source|] == ' ' && rest[|source| + 1] == '{'
    requires NoWhite(source) && k <= |source|
    ensures !OccursAt(rest, LOCATION, k)
  {
    var n := |source|;
    if k + 11 <= |rest| {
      var o := rest[k..k + 11];
      if k + 8 < n {
        assert o[8] == rest[k + 8] == source[k + 8];
      } else if k + 8 == n {
        assert o[9] == rest[k + 9] == '{';
      } else {
        assert o[n - k] == rest[n] == ' ' && LOCATION[n - k] != ' ';
      }
      assert LOCATION[8] == ' ' && LOCATION[9] == '=';
    }
  }

  lemma LocationAfter(rest: string, source: string, k: nat)
    requires |rest| > |source| + 1 && rest[..|source|] == source && rest[|source|] == ' ' && rest[|source| + 1] == '{'
    requires NoWhite(source) && OccursAt(rest, LOCATION, k)
    ensures k > |source|
  {
    if k <= |source| {
      NoLocationAt(rest, source, k);
    }
  }

  // ---------------------------------------------------------------- the words behind "return "

  lemma NoReturnInTail(kind: string, target: string)
    requires |kind| == 3 && NoWhite(kind) && NoWhite(target)
    ensures !Contains(kind + " " + target + "; }", RETURN)
  {
    var b, m := kind + " " + target + "; }", |target|;
    assert "return" + " " == RETURN;
    forall j: nat | j <= |b| ensures !OccursAt(b, RETURN, j) {
      if j + 7 <= |b| {
        assert b[4 + m] == ';' && b[5 + m] == ' ' && b[6 + m] == '}' && |b| == 7 + m;
        if j <= 3 {
          SpacedApart(b, "return", j, 3);
        } else if j + 6 < 5 + m {
          assert b[j + 6] == (target + ";")[j + 2];
          NotFollowedBySpace(b, "return", j);
        } else if j + 6 == 5 + m {
          assert b[j..j + 7][5] == b[4 + m] == ';' && RETURN[5] == 'n';
        } else {
          SpacedApart(b, "return", j, 5 + m);
        }
      }
    }
  }

  lemma SpacedThree(a: string, b: string, c: string)
    ensures Spaced([a, b, c]) == a + " " + (b + " " + c)
  {
    assert [a, b, c][1..] == [b, c] && [b, c][1..] == [c];
    assert Spaced([c]) == c;
    assert Spaced([b, c]) == b + " " + c;
    assert Spaced([a, b, c]) == a + " " + Spaced([b, c]);
  }

  lemma WordSemicolon(target: string)
    requires NoWhite(target)
    ensures IsWord(target + ";") && IsWord("}")
  {
  }

  lemma TailWords(kind: string, target: string)
    requires IsWord(kind) && target != "" && NoWhite(target)
    ensures Words(kind + " " + target + "; }") == [kind, target + ";", "}"]
  {
    hide Words, Spaced, IsWord;
    var words := [kind, target + ";", "}"];
    WordSemicolon(target);
    WordsSpaced(words);
    SpacedThree(kind, target + ";", "}");
    assert kind + " " + target + "; }" == kind + " " + (target + ";" + " " + "}");
  }

  lemma WordsUnfold(s: string)
    ensures var t := TrimStart(s);
            Words(s) == if t == "" then [] else [t[..FirstWhite(t)]] + Words(t[FirstWhite(t)..])
    ensures TrimStart(s) != "" ==> IsWord(TrimStart(s)[..FirstWhite(TrimStart(s))])
  {
  }

  lemma {:induction false} WordsAreWords(s: string)
    ensures forall i | 0 <= i < |Words(s)| :: IsWord(Words(s)[i])
    decreases |s|
  {
    hide Words, IsWord, TrimStart, FirstWhite, IsWhitespace;
    WordsUnfold(s);
    var t := TrimStart(s);
    if t != "" {
      FirstWordLong(t);
      WordsAreWords(t[FirstWhite(t)..]);
    }
  }

  lemma FirstWordLong(t: string)
    requires t != "" && !IsWhitespace(t[0])
    ensures FirstWhite(t) > 0
  {
  }

  lemma TrimOneSemicolon(target: string)
    requires forall i | 0 <= i < |target| :: target[i] != ';'
    ensures TrimSemicolons(target + ";") == target
  {
    assert (target + ";")[..|target|] == target;
  }

  lemma ReadGood(r: Rule)
    requires IsValid(r) && !EndsInReturn(r.source) && NoWhite(r.target)
    ensures ParseRule(RuleLine(r)) == Some(r)
  {
    hide Words, IndexOf, Contains, RuleLine, TrimSemicolons, FirstChar, OccursAt;
    var l, n := RuleLine(r), |r.source|;
    RuleLineHeaded(r);
    ReturnAt(l, r.source);
    var tail := r.kind + " " + r.target + "; }";
    assert l[14 + n + 7..] == tail;
    NoReturnInTail(r.kind, r.target);
    TailWords(r.kind, r.target);
    TrimOneSemicolon(r.target);
    LocationAtStart(l, r.source);
  }

  lemma LocationAtStart(l: string, source: string)
    requires Headed(l, source)
    ensures PieceAfter(l, LOCATION).Some?
    ensures var head := PieceAfter(l, LOCATION).value; head[..FirstChar(head, ' ')] == source
  {
    assert OccursAt(l, LOCATION, 0);
    IndexIs(l, LOCATION, 0);
    var rest := l[11..];
    assert rest[..|source|] == l[11..11 + |source|] && rest[|source|] == l[11 + |source|]
           && rest[|source| + 1] == l[12 + |source|];
    SourceIsFirst(rest, source);
  }

  /** A source ending in "return" hides the rule from the reader. */
  lemma ReadHidden(l: string, source: string)
    requires Headed(l, source) && EndsInReturn(source)
    ensures ParseRule(l) == None
  {
    hide Words, IndexOf, Contains;
    var n := |source|;
    ReturnAt(l, source);
    var rest := l[12 + n..];
    assert l[5 + n + 7..] == rest;
    ReturnAfterBrace(rest);
    BraceAlone();
  }

  lemma ReturnAfterBrace(rest: string)
    requires |rest| >= 9 && rest[0] == '{' && rest[1] == ' ' && rest[2..9] == RETURN
    ensures Contains(rest, RETURN) && IndexOf(rest, RETURN) == 2 && rest[..2] == "{ "
  {
    hide IndexOf, Contains;
    assert "return" + " " == RETURN;
    OtherStart(rest, "return", 0);
    OtherStart(rest, "return", 1);
    IndexIs(rest, RETURN, 2);
  }

  lemma BraceAlone()
    ensures Words("{ ") == ["{"]
  {
    hide Words;
    WordFirst("{", " ");
    assert "{" + " " == "{ " && " " + "" == " ";
    WordsSkipSpace("");
    LastWord("{");
  }

  /**
   A rule is listed as it was added exactly if its source does not end in "return" and its
   target has no whitespace.
   */
  lemma ListedAsAdded(r: Rule)
    requires IsValid(r)
    ensures ParseRule(RuleLine(r)) == Some(r) <==> !EndsInReturn(r.source) && NoWhite(r.target)
  {
    RuleLineHeaded(r);
    if EndsInReturn(r.source) {
      ReadHidden(RuleLine(r), r.source);
    } else if NoWhite(r.target) {
      ReadGood(r);
    } else {
      TargetIsAWord(RuleLine(r));
    }
  }

  lemma TargetIsAWord(l: string)
    ensures ParseRule(l).Some? ==> NoWhite(ParseRule(l).value.target)
  {
    if ParseRule(l).Some? {
      var words := Words(PieceAfter(l, RETURN).value);
      WordsAreWords(PieceAfter(l, RETURN).value);
      assert IsWord(words[1]);
      hide Words, PieceAfter;
      assert forall i | 0 <= i < |TrimSemicolons(words[1])| :: TrimSemicolons(words[1])[i] == words[1][i];
    }
  }

  // ---------------------------------------------------------------- the file

  lemma RuleLineIsLine(r: Rule)
    requires IsValid(r)
    ensures IsLine(RuleLine(r)) && !EndsInCr(RuleLine(r)) && RuleLine(r) != ""
  {
    var l := RuleLine(r);
    assert l[|l| - 1] == '}';
    forall i | 0 <= i < |l| ensures l[i] != '\n' {
    }
  }

  lemma {:induction false} RulesConcat(a: seq<string>, b: seq<string>)
    ensures RulesIn(a + b) == RulesIn(a) + RulesIn(b)
    decreases |a|
  {
    hide RuleIn;
    if a == [] {
      assert a + b == b;
    } else {
      assert (a + b)[1..] == a[1..] + b;
      RulesConcat(a[1..], b);
    }
  }

  /**
   Adding a rule to a file that ends with a line end appends exactly that rule to the list,
   exactly if the rule can be listed.
   */
  lemma ListAfterAdd(content: string, r: Rule)
    requires IsValid(r) && EndsWithBreak(content)
    ensures ListRedirects(Added(content, r)) == ListRedirects(content) + [r] <==>
              !EndsInReturn(r.source) && NoWhite(r.target)
    ensures EndsWithBreak(Added(content, r))
  {
    hide ParseRule, RuleLine, Split;
    RuleLineIsLine(r);
    SplitLine(RuleLine(r));
    SplitAppended(content, RuleLine(r) + "\n");
    assert Added(content, r) == content + (RuleLine(r) + "\n");
    RulesConcat(Split(content), [RuleLine(r)]);
    ListedAsAdded(r);
    var listed, one := RulesIn(Split(content)), RulesIn([RuleLine(r)]);
    assert one == if ParseRule(RuleLine(r)).Some? then [ParseRule(RuleLine(r)).value] else [];
    assert (listed + one)[|listed|..] == one && (listed + [r])[|listed|..] == [r];
  }

  /**
   When the file's last line lacks its line end, the rule is glued to that line; if the line
   is a listed rule, the new one is not listed beside it.
   */
  lemma ListAfterGluing(head: string, last: string, r: Rule)
    requires IsValid(r) && EndsWithBreak(head) && last != "" && IsLine(last)
    ensures Split(Added(head + last, r)) == Split(head) + [last + RuleLine(r)]
    ensures ParseRule(last).Some? ==> |ListRedirects(Added(head + last, r))| <= |ListRedirects(head + last)|
  {
    hide ParseRule, RuleLine, Split, IsValid;
    RuleLineIsLine(r);
    EndOfGlued(last, RuleLine(r));
    SplitLine(last + RuleLine(r));
    SplitOne(last);
    SplitAppended(head, last);
    SplitAppended(head, last + RuleLine(r) + "\n");
    assert Added(head + last, r) == head + (last + RuleLine(r) + "\n");
    RulesConcat(Split(head), [last]);
    RulesConcat(Split(head), [last + RuleLine(r)]);
  }

  lemma EndOfGlued(last: string, l: string)
    requires IsLine(last) && IsLine(l) && l != "" && !EndsInCr(l)
    ensures IsLine(last + l) && !EndsInCr(last + l)
  {
  }

  // ---------------------------------------------------------------- removing

  /** What stands behind "location = " in the rule's line. */
  function Body(r: Rule): string {
    r.source + " { " + RETURN + r.kind + " " + r.target + "; }"
  }

  /** The target of the rule spells "location = ", the source and a space once more. */
  predicate Spells(r: Rule, source: string) {
    Contains(r.target + "; }", LOCATION + source + " ")
  }

  /** A second "location = " begins in the target, if anywhere. */
  lemma SecondLocation(r: Rule, j: nat)
    requires IsValid(r) && j > 0 && OccursAt(RuleLine(r), LOCATION, j)
    ensures j >= 25 + |r.source|
  {
    var l, n := RuleLine(r), |r.source|;
    RuleLineHeaded(r);
    var o := l[j..j + 11];
    assert LOCATION[0] == 'l' && LOCATION[8] == ' ' && LOCATION[9] == '=' && LOCATION[10] == ' ';
    assert o[0] == l[j] && o[8] == l[j + 8] && o[9] == l[j + 9] && o[10] == l[j + 10];
    if 11 + n <= j + 9 < 25 + n {
      BetweenSourceAndTarget(r, j + 9);
    } else if 25 + n <= j + 9 && j < 25 + n {
      BetweenSourceAndTarget(r, j);
    }
  }

  /** Between source and target no "=" and no "l" stand. */
  lemma BetweenSourceAndTarget(r: Rule, k: nat)
    requires IsValid(r) && 11 + |r.source| <= k < 25 + |r.source|
    ensures RuleLine(r)[k] != '=' && RuleLine(r)[k] != 'l'
  {
    var l, n := RuleLine(r), |r.source|;
    var middle := " { " + RETURN + r.kind + " ";
    assert |middle| == 14;
    assert l == (LOCATION + r.source) + middle + (r.target + "; }");
    assert l[k] == middle[k - 11 - n];
  }

  lemma LineParts(r: Rule)
    requires IsValid(r)
    ensures RuleLine(r) == LOCATION + Body(r)
    ensures var head := LOCATION + r.source + " { " + RETURN + r.kind + " ";
            |head| == 25 + |r.source| && RuleLine(r) == head + (r.target + "; }") + ""
  {
  }

  /**
   A rule is removed for a source exactly if its line goes on with that source and a space
   behind "location = ", or if its target spells that once more.
   */
  lemma RemovedExactly(r: Rule, source: string)
    requires IsValid(r)
    ensures !Spares(source)(RuleLine(r)) <==> source + " " <= Body(r) || Spells(r, source)
    ensures ' ' !in source ==> (source + " " <= Body(r) <==> source == r.source)
    ensures NoWhite(r.target) ==> !Spells(r, source)
  {
    hide RuleLine, Body, IsValid, Contains, Spells, NoWhite;
    OwnSource(r, source);
    if NoWhite(r.target) {
      PlainTargetSpellsNothing(r, source);
    }
    SpelledTwice(r, source);
  }

  lemma SpelledTwice(r: Rule, source: string)
    requires IsValid(r)
    ensures Contains(RuleLine(r), LOCATION + source + " ") <==> source + " " <= Body(r) || Spells(r, source)
  {
    hide RuleLine, Body, IsValid, OccursAt;
    var l, sub, tail := RuleLine(r), LOCATION + (source + " "), r.target + "; }";
    var head := LOCATION + r.source + " { " + RETURN + r.kind + " ";
    assert sub == LOCATION + source + " ";
    LineParts(r);
    AtStart(l, Body(r), source + " ");
    if Contains(l, sub) {
      var j: nat :| j <= |l| && OccursAt(l, sub, j);
      PrefixOccurs(l, LOCATION, source + " ", j);
      if j > 0 {
        SecondLocation(r, j);
        LaterInTail(head, tail, sub, j);
      }
    }
    if Spells(r, source) {
      ContainsInContext(head, tail, "", sub);
    }
  }

  lemma PrefixOccurs(l: string, sub: string, more: string, j: nat)
    requires OccursAt(l, sub + more, j)
    ensures OccursAt(l, sub, j)
  {
    assert l[j..j + |sub|] == l[j..j + |sub + more|][..|sub|];
  }

  lemma AtStart(l: string, body: string, rest: string)
    requires l == LOCATION + body
    ensures OccursAt(l, LOCATION + rest, 0) <==> rest <= body
  {
    var sub := LOCATION + rest;
    if |sub| <= |l| {
      assert l[0..|sub|] == LOCATION + body[..|rest|];
      assert sub[11..] == rest && (LOCATION + body[..|rest|])[11..] == body[..|rest|];
    }
  }

  lemma LaterInTail(head: string, tail: string, sub: string, j: nat)
    requires OccursAt(head + tail + "", sub, j) && j >= |head|
    ensures Contains(tail, sub)
  {
    assert tail[j - |head|..j - |head| + |sub|] == (head + tail + "")[j..j + |sub|];
    assert OccursAt(tail, sub, j - |head|);
  }

  lemma OwnSource(r: Rule, source: string)
    requires IsValid(r)
    ensures ' ' !in source ==> (source + " " <= Body(r) <==> source == r.source)
  {
    hide *;
    var rest := "{ " + RETURN + r.kind + " " + r.target + "; }";
    assert Body(r) == r.source + [' '] + rest && ' ' !in r.source by {
      BodyParts(r, rest);
    }
    if ' ' !in source {
      FirstCharAfter(r.source, ' ', rest);
      if source + " " <= Body(r) {
        assert source + " " == source + [' '];
        assert Body(r) == source + [' '] + Body(r)[|source| + 1..];
        FirstCharAfter(source, ' ', Body(r)[|source| + 1..]);
        assert Body(r)[..|source|] == source && Body(r)[..|r.source|] == r.source;
      }
    }
  }

  lemma BodyParts(r: Rule, rest: string)
    requires IsValid(r) && rest == "{ " + RETURN + r.kind + " " + r.target + "; }"
    ensures Body(r) == r.source + [' '] + rest && ' ' !in r.source
  {
    hide OccursAt, Contains;
    assert " { " == [' '] + "{ ";
    assert " " == [' '];
    assert Body(r) == r.source + (" { " + RETURN + r.kind + " " + r.target + "; }");
    assert " { " + RETURN + r.kind + " " + r.target + "; }" == [' '] + rest;
  }

  lemma PlainTargetSpellsNothing(r: Rule, source: string)
    requires NoWhite(r.target)
    ensures !Spells(r, source)
  {
    var t, sub := r.target + "; }", LOCATION + source + " ";
    assert sub[8] == LOCATION[8] == ' ';
    forall j: nat | j <= |t| ensures !OccursAt(t, sub, j) {
      if j + |sub| <= |t| {
        assert t[j..j + |sub|][8] == t[j + 8] == r.target[j + 8];
      }
    }
  }

  lemma PlainSource()
    ensures forall i | 0 <= i < |"/a"| :: !IsWhitespace("/a"[i])
  {
  }

  /** A target that spells another rule: removing "/b" takes the rule for "/a" along. */
  lemma TargetSpellsAnotherSource()
    ensures var r := Rule("/a", "x location = /b y", "301"); IsValid(r) && !Spares("/b")(RuleLine(r))
  {
    hide RuleLine, Body, IsWhitespace;
    var r := Rule("/a", "x location = /b y", "301");
    PlainSource();
    var sub := LOCATION + "/b" + " ";
    assert r.target + "; }" == "x " + sub + "y; }";
    assert OccursAt(sub, sub, 0);
    ContainsInContext("x ", sub, "y; }", sub);
    RemovedExactly(r, "/b");
  }

  function RuleLines(rules: seq<Rule>): seq<string> {
    if rules == [] then [] else [RuleLine(rules[0])] + RuleLines(rules[1..])
  }

  function Without(rules: seq<Rule>, source: string): seq<Rule> {
    if rules == [] then [] else (if rules[0].source == source then [] else [rules[0]]) + Without(rules[1..], source)
  }

  ghost predicate AllValid(rules: seq<Rule>) {
    forall i | 0 <= i < |rules| :: IsValid(rules[i])
  }

  ghost predicate Listable(rules: seq<Rule>) {
    forall i | 0 <= i < |rules| :: !EndsInReturn(rules[i].source) && NoWhite(rules[i].target)
  }

  /** No rule for another source has a target that spells this one. */
  ghost predicate OnlyOwn(rules: seq<Rule>, source: string) {
    forall i | 0 <= i < |rules| && rules[i].source != source :: !Spells(rules[i], source)
  }

  /** A file of accepted rules, possibly after an empty line (which a removal of the last rule leaves). */
  ghost predicate Holds(content: string, rules: seq<Rule>) {
    && AllValid(rules) && EndsWithBreak(content)
    && (Split(content) == RuleLines(rules) || Split(content) == [""] + RuleLines(rules))
  }

  lemma {:induction false} RulesOfLines(rules: seq<Rule>)
    requires AllValid(rules)
    ensures |RulesIn(RuleLines(rules))| <= |rules|
    ensures RulesIn(RuleLines(rules)) == rules <==> Listable(rules)
    decreases |rules|
  {
    hide ParseRule, RuleLine, IsValid, EndsInReturn, NoWhite;
    if rules != [] {
      var first, rest := ParseRule(RuleLine(rules[0])), RulesIn(RuleLines(rules[1..]));
      ListedAsAdded(rules[0]);
      RulesOfLines(rules[1..]);
      assert Listable(rules) <==>
             !EndsInReturn(rules[0].source) && NoWhite(rules[0].target) && Listable(rules[1..]) by {
        assert forall i | 1 <= i < |rules| :: rules[i] == rules[1..][i - 1];
      }
      if first.Some? {
        assert ([first.value] + rest)[0] == first.value && ([first.value] + rest)[1..] == rest;
      }
    }
  }

  lemma EmptyLine(source: string)
    ensures ParseRule("") == None && Spares(source)("")
  {
    assert forall i: nat | i <= 0 :: !OccursAt("", LOCATION, i) && !OccursAt("", LOCATION + source + " ", i);
  }

  /** A file of rules is listed as these rules exactly if each of them can be listed. */
  lemma HeldIsListed(content: string, rules: seq<Rule>)
    requires Holds(content, rules)
    ensures ListRedirects(content) == rules <==> Listable(rules)
  {
    hide ParseRule, RuleLine;
    RulesOfLines(rules);
    EmptyLine("");
    RulesConcat([""], RuleLines(rules));
    assert RulesIn([""]) == [];
  }

  lemma {:induction false} RuleLinesAppend(rules: seq<Rule>, r: Rule)
    ensures RuleLines(rules + [r]) == RuleLines(rules) + [RuleLine(r)]
    decreases |rules|
  {
    hide RuleLine;
    if rules == [] {
      assert [] + [r] == [r] && RuleLines([r]) == [RuleLine(r)] + RuleLines([]);
    } else {
      assert (rules + [r])[1..] == rules[1..] + [r];
      RuleLinesAppend(rules[1..], r);
    }
  }

  lemma HoldsAfterAdd(content: string, rules: seq<Rule>, r: Rule)
    requires Holds(content, rules) && IsValid(r)
    ensures Holds(Added(content, r), rules + [r])
  {
    hide RuleLine, Split, IsValid;
    RuleLineIsLine(r);
    SplitLine(RuleLine(r));
    SplitAppended(content, RuleLine(r) + "\n");
    assert Added(content, r) == content + (RuleLine(r) + "\n");
    RuleLinesAppend(rules, r);
  }

  /** What a removal leaves of a list of rules. */
  function Left(rules: seq<Rule>, source: string): seq<Rule> {
    if rules == [] then []
    else (if rules[0].source == source || Spells(rules[0], source) then [] else [rules[0]]) + Left(rules[1..], source)
  }

  lemma {:induction false} KeptRules(rules: seq<Rule>, source: string)
    requires AllValid(rules) && ' ' !in source
    ensures Keep(RuleLines(rules), Spares(source)) == RuleLines(Left(rules, source))
    ensures AllValid(Left(rules, source))
    decreases |rules|
  {
    hide RuleLine, IsValid, Spells;
    if rules != [] {
      RemovedExactly(rules[0], source);
      KeptRules(rules[1..], source);
      var more := [rules[0]] + Left(rules[1..], source);
      assert more[0] == rules[0] && more[1..] == Left(rules[1..], source);
      assert [] + Left(rules[1..], source) == Left(rules[1..], source);
    }
  }

  lemma {:induction false} LeftExactly(rules: seq<Rule>, source: string)
    ensures |Left(rules, source)| <= |Without(rules, source)|
    ensures OnlyOwn(rules, source) ==> Left(rules, source) == Without(rules, source)
    ensures !OnlyOwn(rules, source) ==> |Left(rules, source)| < |Without(rules, source)|
    decreases |rules|
  {
    hide Spells;
    if rules != [] {
      LeftExactly(rules[1..], source);
      if !OnlyOwn(rules, source) && (rules[0].source == source || !Spells(rules[0], source)) {
        var i :| 0 <= i < |rules| && rules[i].source != source && Spells(rules[i], source);
        assert rules[1..][i - 1] == rules[i];
      }
    }
  }

  lemma {:induction false} RuleLinesAreLines(rules: seq<Rule>)
    requires AllValid(rules)
    ensures AreLines(RuleLines(rules)) && NoCr(RuleLines(rules)) && |RuleLines(rules)| == |rules|
    ensures forall i | 0 <= i < |rules| :: RuleLines(rules)[i] != ""
    decreases |rules|
  {
    hide RuleLine, IsValid, IsLine, EndsInCr;
    if rules != [] {
      RuleLineIsLine(rules[0]);
      LineParts(rules[0]);
      RuleLinesAreLines(rules[1..]);
    }
  }

  lemma WrittenRules(lines: seq<string>, rules: seq<Rule>)
    requires AllValid(rules) && (lines == RuleLines(rules) || lines == [""] + RuleLines(rules))
    ensures Holds(Written(lines), rules)
  {
    hide RuleLine, IsValid;
    RuleLinesAreLines(rules);
    assert AreLines(lines) && NoCr(lines);
    SplitWritten(lines);
    DropCrsNothing(Padded(lines));
    if lines == [] {
      assert rules == [] && [""] + RuleLines(rules) == [""];
    }
  }

  lemma HoldsAsMany(content: string, a: seq<Rule>, b: seq<Rule>)
    requires Holds(content, a) && Holds(content, b)
    ensures |a| == |b|
  {
    hide RuleLine, IsValid, Split;
    RuleLinesAreLines(a);
    RuleLinesAreLines(b);
    if Split(content) != [] {
      assert Split(content) == [""] + RuleLines(a) <==> Split(content)[0] == "";
      assert Split(content) == [""] + RuleLines(b) <==> Split(content)[0] == "";
    }
  }

  /**
   Removing a source leaves the rules for the other sources, in order, exactly if no target
   among them spells that source.
   */
  lemma HoldsAfterRemove(content: string, rules: seq<Rule>, source: string)
    requires Holds(content, rules) && ' ' !in source
    ensures Holds(RemovedFrom(content, source), Left(rules, source))
    ensures Holds(RemovedFrom(content, source), Without(rules, source)) <==> OnlyOwn(rules, source)
    ensures Listable(rules) ==> OnlyOwn(rules, source)
  {
    hide RuleLine, IsValid, Split;
    KeptRules(rules, source);
    EmptyLine(source);
    assert Keep([""], Spares(source)) == [""];
    KeepConcat([""], RuleLines(rules), Spares(source));
    WrittenRules(Keep(Split(content), Spares(source)), Left(rules, source));
    LeftExactly(rules, source);
    if Holds(RemovedFrom(content, source), Without(rules, source)) {
      HoldsAsMany(RemovedFrom(content, source), Left(rules, source), Without(rules, source));
    }
    if Listable(rules) {
      forall i | 0 <= i < |rules| ensures !Spells(rules[i], source) {
        PlainTargetSpellsNothing(rules[i], source);
      }
    }
  }

  // ---------------------------------------------------------------- the file as the routes change it

  /** How the calls of one request end: the write of the file, nginx's test of its configuration, its reload. */
  datatype Calls = Calls(written: bool, accepted: bool, reloaded: bool)

  /** The redirect file of one site. */
  class RedirectFile {
    var content: string

    constructor ()
      ensures content == "" && Holds(content, [])
    {
      content := "";
    }

    /** `add_redirect`: a refused configuration puts the old content back, a failed reload does not. */
    method AddRedirect(r: Rule, calls: Calls) returns (ok: bool)
      modifies this
      ensures ok <==> IsValid(r) && calls.written && calls.accepted && calls.reloaded
      ensures content == if IsValid(r) && calls.written && calls.accepted then Added(old(content), r) else old(content)
      ensures ok ==> forall rules | Holds(old(content), rules) :: Holds(content, rules + [r])
    {
      if !IsValid(r) || !calls.written {
        return false;
      }
      var existing := content;
      content := existing + RuleLine(r) + "\n";
      if !calls.accepted {
        content := existing;
        return false;
      }
      forall rules | Holds(existing, rules) ensures Holds(Added(existing, r), rules + [r]) {
        HoldsAfterAdd(existing, rules, r);
      }
      ok := calls.reloaded;
    }

    /** `remove_redirect`: a failed write goes unnoticed, and a refused configuration is kept. */
    method RemoveRedirect(source: string, calls: Calls) returns (ok: bool)
      modifies this
      ensures ok <==> source != "" && (calls.accepted ==> calls.reloaded)
      ensures content == if source != "" && calls.written then RemovedFrom(old(content), source) else old(content)
      ensures source != "" && calls.written && ' ' !in source ==>
                forall rules | Holds(old(content), rules) ::
                  Holds(content, Without(rules, source)) <==> OnlyOwn(rules, source)
    {
      if source == "" {
        return false;
      }
      if calls.written {
        var existing := content;
        content := Join(Keep(Split(existing), Spares(source))) + "\n";
        if ' ' !in source {
          forall rules | Holds(existing, rules)
            ensures Holds(RemovedFrom(existing, source), Without(rules, source)) <==> OnlyOwn(rules, source)
          {
            HoldsAfterRemove(existing, rules, source);
          }
        }
      }
      ok := !calls.accepted || calls.reloaded;
    }
  }
}
