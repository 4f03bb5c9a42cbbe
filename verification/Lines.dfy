/**
 The `lines`/`join` pair of the Rust standard library, on which every line-oriented store of
 the agent is built, and what filtering and appending lines does to a file.
 */
module Lines {
  import opened Wrappers
  import opened Text

  // ---------------------------------------------------------------- lines and join

  function FirstBreak(s: string): (i: nat)
    ensures i <= |s| && '\n' !in s[..i] && (i < |s| ==> s[i] == '\n')
  {
    if s == "" || s[0] == '\n' then 0 else FirstBreak(s[1..]) + 1
  }

  predicate EndsInCr(s: string) {
    s != "" && s[|s| - 1] == '\r'
  }

  function DropCr(s: string): string {
    if EndsInCr(s) then s[..|s| - 1] else s
  }

  /** `str::lines`: "\n" and "\r\n" end a line; an empty last line is no line. */
  function Split(s: string): seq<string>
    decreases |s|
  {
    if s == "" then []
    else
      var i := FirstBreak(s);
      if i == |s| then [s] else [DropCr(s[..i])] + Split(s[i + 1..])
  }

  /** `join("\n")`. */
  function Join(lines: seq<string>): string {
    if lines == [] then ""
    else if |lines| == 1 then lines[0]
    else lines[0] + "\n" + Join(lines[1..])
  }

  predicate IsLine(l: string) {
    '\n' !in l
  }

  ghost predicate AreLines(lines: seq<string>) {
    forall i | 0 <= i < |lines| :: IsLine(lines[i])
  }

  ghost predicate NoCr(lines: seq<string>) {
    forall i | 0 <= i < |lines| :: !EndsInCr(lines[i])
  }

  function DropCrs(lines: seq<string>): (r: seq<string>)
    ensures |r| == |lines| && forall i | 0 <= i < |lines| :: r[i] == DropCr(lines[i])
  {
    if lines == [] then [] else [DropCr(lines[0])] + DropCrs(lines[1..])
  }

  lemma DropCrsConcat(a: seq<string>, b: seq<string>)
    ensures DropCrs(a + b) == DropCrs(a) + DropCrs(b)
  {
  }

  lemma DropCrsNothing(a: seq<string>)
    ensures DropCrs(a) == a <==> NoCr(a)
  {
    if !NoCr(a) {
      var i :| 0 <= i < |a| && EndsInCr(a[i]);
      assert |DropCrs(a)[i]| < |a[i]|;
    }
  }

  // ---------------------------------------------------------------- how they meet

  lemma {:induction false} BreakAfterLine(l: string, rest: string)
    requires IsLine(l)
    ensures FirstBreak(l + "\n" + rest) == |l|
    decreases |l|
  {
    var s := l + "\n" + rest;
    if l != "" {
      assert s[0] == l[0] && s[1..] == l[1..] + "\n" + rest;
      BreakAfterLine(l[1..], rest);
    }
  }

  lemma SplitFirst(l: string, rest: string)
    requires IsLine(l)
    ensures Split(l + "\n" + rest) == [DropCr(l)] + Split(rest)
  {
    var s := l + "\n" + rest;
    BreakAfterLine(l, rest);
    assert s[..|l|] == l && s[|l| + 1..] == rest;
  }

  lemma SplitOne(l: string)
    requires IsLine(l)
    ensures Split(l) == if l == "" then [] else [l]
  {
  }

  lemma {:induction false} SplitGivesLines(s: string)
    ensures AreLines(Split(s))
    decreases |s|
  {
    if s != "" && FirstBreak(s) < |s| {
      SplitGivesLines(s[FirstBreak(s) + 1..]);
    }
  }

  lemma NoCrAlone()
    ensures DropCrs([""]) == [""] == [DropCr("")]
  {
  }

  /** Lines joined and followed by a line end and more: read back, less one "\r" each. */
  lemma {:induction false} SplitJoinThen(lines: seq<string>, rest: string)
    requires AreLines(lines)
    ensures Split(Join(lines) + "\n" + rest) == DropCrs(Padded(lines)) + Split(rest)
    decreases |lines|
  {
    hide Split, DropCr;
    if lines == [] {
      SplitFirst("", rest);
      NoCrAlone();
    } else if |lines| == 1 {
      SplitFirst(lines[0], rest);
      assert DropCrs(lines) == [DropCr(lines[0])];
    } else {
      var tail := Join(lines[1..]) + "\n" + rest;
      assert Join(lines) + "\n" + rest == lines[0] + "\n" + tail;
      SplitFirst(lines[0], tail);
      SplitJoinThen(lines[1..], rest);
      assert DropCrs(lines) == [DropCr(lines[0])] + DropCrs(lines[1..]);
    }
  }

  /** Nothing joined is still an empty line when something follows it. */
  function Padded(lines: seq<string>): seq<string> {
    if lines == [] then [""] else lines
  }

  /** Joined lines read back: the last one keeps its "\r", and is lost if it is empty. */
  lemma {:induction false} SplitJoin(lines: seq<string>)
    requires AreLines(lines) && lines != []
    ensures var n := |lines| - 1;
            Split(Join(lines)) == DropCrs(lines[..n]) + (if lines[n] == "" then [] else [lines[n]])
    decreases |lines|
  {
    var n := |lines| - 1;
    if n == 0 {
      SplitOne(lines[0]);
      assert lines[..n] == [];
    } else {
      assert IsLine(lines[n]) && AreLines(lines[..n]);
      JoinLast(lines);
      SplitJoinThen(lines[..n], lines[n]);
      SplitOne(lines[n]);
    }
  }

  lemma {:induction false} JoinLast(lines: seq<string>)
    requires |lines| > 1
    ensures Join(lines) == Join(lines[..|lines| - 1]) + "\n" + lines[|lines| - 1]
    decreases |lines|
  {
    var n := |lines| - 1;
    if n == 1 {
      assert lines[1..] == [lines[1]] && lines[..1] == [lines[0]];
    } else {
      JoinLast(lines[1..]);
      assert lines[1..][..n - 1] == lines[..n][1..];
      assert Join(lines[..n]) == lines[0] + "\n" + Join(lines[..n][1..]);
    }
  }

  lemma NothingJoined()
    ensures Split(Join([])) == []
  {
  }

  /** Lines each ended with a line end. */
  function Written(lines: seq<string>): string {
    Join(lines) + "\n"
  }

  lemma SplitWritten(lines: seq<string>)
    requires AreLines(lines)
    ensures Split(Written(lines)) == DropCrs(Padded(lines))
  {
    SplitJoinThen(lines, "");
    assert Join(lines) + "\n" + "" == Join(lines) + "\n";
    assert Split("") == [];
  }

  lemma {:induction false} JoinLength(lines: seq<string>)
    ensures lines != [] ==> |Join(lines)| == Total(lines) + |lines| - 1
    decreases |lines|
  {
    if |lines| > 1 {
      JoinLength(lines[1..]);
    }
  }

  function Total(lines: seq<string>): nat {
    if lines == [] then 0 else |lines[0]| + Total(lines[1..])
  }

  lemma {:induction false} TotalConcat(a: seq<string>, b: seq<string>)
    ensures Total(a + b) == Total(a) + Total(b)
    decreases |a|
  {
    if a == [] {
      assert a + b == b;
    } else {
      assert (a + b)[1..] == a[1..] + b;
      TotalConcat(a[1..], b);
    }
  }

  lemma {:induction false} TotalAfterDrop(lines: seq<string>)
    ensures Total(DropCrs(lines)) <= Total(lines)
    ensures !NoCr(lines) ==> Total(DropCrs(lines)) < Total(lines)
    decreases |lines|
  {
    if lines != [] {
      assert DropCrs(lines)[1..] == DropCrs(lines[1..]);
      TotalAfterDrop(lines[1..]);
      if !NoCr(lines) && !EndsInCr(lines[0]) {
        var i :| 0 <= i < |lines| && EndsInCr(lines[i]);
        assert EndsInCr(lines[1..][i - 1]);
      }
    }
  }

  lemma ShorterAfterDrop(ks: seq<string>, es: seq<string>)
    requires !NoCr(ks)
    ensures |Join(DropCrs(ks) + es)| < |Join(ks + es)|
  {
    JoinLength(DropCrs(ks) + es);
    JoinLength(ks + es);
    TotalConcat(DropCrs(ks), es);
    TotalConcat(ks, es);
    TotalAfterDrop(ks);
  }

  // ---------------------------------------------------------------- appending

  ghost predicate EndsWithBreak(content: string) {
    content == "" || content[|content| - 1] == '\n'
  }

  lemma {:induction false} FirstLine(content: string) returns (head: string, rest: string)
    requires content != "" && EndsWithBreak(content)
    ensures content == head + "\n" + rest && IsLine(head) && EndsWithBreak(rest) && |rest| < |content|
    decreases |content|
  {
    if content[0] == '\n' {
      head, rest := "", content[1..];
      assert rest != "" ==> rest[|rest| - 1] == content[|content| - 1];
    } else {
      assert content[1..][|content| - 2] == content[|content| - 1];
      head, rest := FirstLine(content[1..]);
      head := [content[0]] + head;
      assert content == [content[0]] + content[1..];
    }
  }

  /** What is appended behind a line end is read after what was there. */
  lemma {:induction false} SplitAppended(content: string, more: string)
    requires EndsWithBreak(content)
    ensures Split(content + more) == Split(content) + Split(more)
    decreases |content|
  {
    hide Split;
    if content == "" {
      assert content + more == more;
      NothingSplit();
    } else {
      var head, rest := FirstLine(content);
      assert content + more == head + "\n" + (rest + more);
      SplitFirst(head, rest);
      SplitFirst(head, rest + more);
      SplitAppended(rest, more);
    }
  }

  lemma NothingSplit()
    ensures Split("") == []
  {
  }

  lemma SplitLine(l: string)
    requires IsLine(l)
    ensures Split(l + "\n") == [DropCr(l)]
  {
    SplitFirst(l, "");
    assert l + "\n" + "" == l + "\n";
  }

  // ---------------------------------------------------------------- filters

  function Keep(lines: seq<string>, p: string -> bool): seq<string> {
    if lines == [] then [] else (if p(lines[0]) then [lines[0]] else []) + Keep(lines[1..], p)
  }

  lemma {:induction false} KeepConcat(a: seq<string>, b: seq<string>, p: string -> bool)
    ensures Keep(a + b, p) == Keep(a, p) + Keep(b, p)
    decreases |a|
  {
    if a == [] {
      assert a + b == b;
    } else {
      assert (a + b)[1..] == a[1..] + b;
      KeepConcat(a[1..], b, p);
    }
  }

  ghost predicate AllSatisfy(lines: seq<string>, p: string -> bool) {
    forall i | 0 <= i < |lines| :: p(lines[i])
  }

  ghost predicate NoneSatisfies(lines: seq<string>, p: string -> bool) {
    forall i | 0 <= i < |lines| :: !p(lines[i])
  }

  lemma {:induction false} KeepAll(lines: seq<string>, p: string -> bool)
    requires AllSatisfy(lines, p)
    ensures Keep(lines, p) == lines
    decreases |lines|
  {
    if lines != [] {
      KeepAll(lines[1..], p);
    }
  }

  lemma {:induction false} KeepNone(lines: seq<string>, p: string -> bool)
    requires NoneSatisfies(lines, p)
    ensures Keep(lines, p) == []
    decreases |lines|
  {
    if lines != [] {
      KeepNone(lines[1..], p);
    }
  }

  lemma {:induction false} KeepSatisfies(lines: seq<string>, p: string -> bool)
    ensures AllSatisfy(Keep(lines, p), p)
    ensures AreLines(lines) ==> AreLines(Keep(lines, p))
    ensures NoCr(lines) ==> NoCr(Keep(lines, p))
    decreases |lines|
  {
    if lines != [] {
      KeepSatisfies(lines[1..], p);
    }
  }

  /** A property that a trailing "\r" has no part in. */
  ghost predicate IgnoresCr(p: string -> bool) {
    forall l: string :: p(DropCr(l)) == p(l)
  }

  lemma {:induction false} KeepDropCrs(lines: seq<string>, p: string -> bool)
    requires IgnoresCr(p)
    ensures Keep(DropCrs(lines), p) == DropCrs(Keep(lines, p))
    decreases |lines|
  {
    if lines != [] {
      KeepDropCrs(lines[1..], p);
      assert DropCrs(lines)[1..] == DropCrs(lines[1..]);
      assert p(DropCr(lines[0])) == p(lines[0]);
      if p(lines[0]) {
        assert DropCrs([lines[0]] + Keep(lines[1..], p)) == [DropCr(lines[0])] + DropCrs(Keep(lines[1..], p));
      }
    }
  }

  /** `find`. */
  function Find(lines: seq<string>, p: string -> bool): (r: Option<string>)
    ensures r.Some? ==> p(r.value) && r.value in lines
  {
    if lines == [] then None else if p(lines[0]) then Some(lines[0]) else Find(lines[1..], p)
  }

  lemma {:induction false} FindConcat(a: seq<string>, b: seq<string>, p: string -> bool)
    ensures Find(a + b, p) == if Find(a, p).Some? then Find(a, p) else Find(b, p)
    decreases |a|
  {
    if a == [] {
      assert a + b == b;
    } else {
      assert (a + b)[1..] == a[1..] + b;
      FindConcat(a[1..], b, p);
    }
  }

  lemma {:induction false} FindNone(lines: seq<string>, p: string -> bool)
    requires NoneSatisfies(lines, p)
    ensures Find(lines, p) == None
    decreases |lines|
  {
    if lines != [] {
      FindNone(lines[1..], p);
    }
  }

  /** A filter that lets through whatever is looked for does not change what is found. */
  lemma {:induction false} FindKept(lines: seq<string>, p: string -> bool, q: string -> bool)
    requires forall i | 0 <= i < |lines| && p(lines[i]) :: q(lines[i])
    ensures Find(Keep(lines, q), p) == Find(lines, p)
    decreases |lines|
  {
    if lines != [] {
      FindKept(lines[1..], p, q);
      var more := [lines[0]] + Keep(lines[1..], q);
      assert more[0] == lines[0] && more[1..] == Keep(lines[1..], q);
      assert [] + Keep(lines[1..], q) == Keep(lines[1..], q);
    }
  }

  lemma {:induction false} FindDropCrs(lines: seq<string>, p: string -> bool)
    requires IgnoresCr(p)
    ensures Find(DropCrs(lines), p) == if Find(lines, p).Some? then Some(DropCr(Find(lines, p).value)) else None
    decreases |lines|
  {
    if lines != [] {
      assert DropCrs(lines)[0] == DropCr(lines[0]) && DropCrs(lines)[1..] == DropCrs(lines[1..]);
      assert p(DropCr(lines[0])) == p(lines[0]);
      FindDropCrs(lines[1..], p);
    }
  }

  // ---------------------------------------------------------------- what a trailing "\r" has no part in

  lemma PrefixIgnoresCr(l: string, prefix: string)
    requires '\r' !in prefix
    ensures StartsWith(DropCr(l), prefix) <==> StartsWith(l, prefix)
  {
    if EndsInCr(l) {
      assert prefix != l by { assert '\r' in l; }
    }
  }

  lemma ContainsIgnoresCr(l: string, sub: string)
    requires '\r' !in sub
    ensures Contains(DropCr(l), sub) <==> Contains(l, sub)
  {
    if EndsInCr(l) {
      var d := DropCr(l);
      assert l == "" + d + "\r" && "" + d == d;
      if Contains(d, sub) {
        ContainsInContext("", d, "\r", sub);
      }
      if Contains(l, sub) {
        var i: nat :| i <= |l| && OccursAt(l, sub, i);
        BeforeCr(d, sub, i);
      }
    }
  }

  lemma BeforeCr(d: string, sub: string, i: nat)
    requires '\r' !in sub && OccursAt(d + "\r", sub, i)
    ensures Contains(d, sub)
  {
    if sub == "" {
      assert OccursAt(d, sub, 0);
    } else {
      var l, n := d + "\r", |sub|;
      assert l[i..i + n][n - 1] == l[i + n - 1] && sub[n - 1] != '\r';
      assert l[|d|] == '\r';
      assert d[i..i + n] == l[i..i + n];
      assert OccursAt(d, sub, i);
    }
  }

  // ---------------------------------------------------------------- pieces around a string

  /** `split(sep).nth(1)`. */
  function PieceAfter(l: string, sep: string): Option<string> {
    if !Contains(l, sep) then None
    else
      var rest := l[IndexOf(l, sep) + |sep|..];
      Some(if Contains(rest, sep) then rest[..IndexOf(rest, sep)] else rest)
  }
}
