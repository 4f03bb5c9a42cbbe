/**
 Text primitives with the meaning the Rust standard library gives them: character
 classes, trimming, substring search, and the `lines`/`join` pair that every
 line-oriented configuration store of the agent is built from.
 */
module Text {

  // ---------------------------------------------------------------- characters

  /** `char::is_control`: Unicode general category Cc. */
  predicate IsControl(c: char) {
    c < ' ' || '\U{7F}' <= c <= '\U{9F}'
  }

  /** `char::is_whitespace`: the Unicode White_Space property. */
  predicate IsWhitespace(c: char) {
    || '\U{09}' <= c <= '\U{0D}'
    || c == ' '
    || c == '\U{85}'
    || c == '\U{A0}'
    || c == '\U{1680}'
    || '\U{2000}' <= c <= '\U{200A}'
    || c == '\U{2028}'
    || c == '\U{2029}'
    || c == '\U{202F}'
    || c == '\U{205F}'
    || c == '\U{3000}'
  }

  predicate IsDigit(c: char) {
    '0' <= c <= '9'
  }

  predicate IsLetter(c: char) {
    'a' <= c <= 'z' || 'A' <= c <= 'Z'
  }

  // ---------------------------------------------------------------- trimming

  predicate IsSuffix(a: string, b: string) {
    |a| <= |b| && a == b[|b| - |a|..]
  }

  ghost predicate AllWhite(s: string) {
    forall i | 0 <= i < |s| :: IsWhitespace(s[i])
  }

  function TrimStart(s: string): (t: string)
    ensures IsSuffix(t, s)
    ensures t == "" || !IsWhitespace(t[0])
  {
    if s == "" || !IsWhitespace(s[0]) then s else TrimStart(s[1..])
  }

  function TrimEnd(s: string): (t: string)
    ensures t <= s
    ensures t == "" || !IsWhitespace(t[|t| - 1])
  {
    if s == "" || !IsWhitespace(s[|s| - 1]) then s else TrimEnd(s[..|s| - 1])
  }

  function Trim(s: string): (t: string) {
    TrimEnd(TrimStart(s))
  }

  lemma {:induction false} TrimStartAfter(before: string, s: string)
    requires AllWhite(before)
    ensures TrimStart(before + s) == TrimStart(s)
  {
    if before == "" {
      assert before + s == s;
    } else {
      assert (before + s)[1..] == before[1..] + s;
      TrimStartAfter(before[1..], s);
    }
  }

  lemma {:induction false} TrimStartParts(s: string)
    ensures AllWhite(s[..|s| - |TrimStart(s)|])
  {
    if s != "" && IsWhitespace(s[0]) {
      TrimStartParts(s[1..]);
      var n := |s| - |TrimStart(s)|;
      assert s[..n] == [s[0]] + s[1..][..n - 1];
    }
  }

  lemma {:induction false} TrimEndParts(s: string)
    ensures AllWhite(s[|TrimEnd(s)|..])
  {
    if s != "" && IsWhitespace(s[|s| - 1]) {
      TrimEndParts(s[..|s| - 1]);
      var n := |TrimEnd(s)|;
      assert s[n..] == s[..|s| - 1][n..] + [s[|s| - 1]];
    }
  }

  lemma TrimParts(s: string) returns (before: string, after: string)
    ensures AllWhite(before) && AllWhite(after) && s == before + Trim(s) + after
  {
    var m := TrimStart(s);
    TrimStartParts(s);
    TrimEndParts(m);
    before, after := s[..|s| - |m|], m[|TrimEnd(m)|..];
  }

  /** Trimming leaves a string as it is exactly if there is no white space at its ends. */
  lemma TrimmedExactly(s: string)
    ensures Trim(s) == s <==> s == "" || (!IsWhitespace(s[0]) && !IsWhitespace(s[|s| - 1]))
  {
    if s != "" && !IsWhitespace(s[0]) && !IsWhitespace(s[|s| - 1]) {
      assert "" + s + "" == s;
      TrimBetween("", s, "");
    }
    if Trim(s) == s != "" {
      assert TrimStart(s) == s;
    }
  }

  /** What stands between white space, and neither begins nor ends with any, is what trimming leaves. */
  lemma {:induction false} TrimBetween(before: string, s: string, after: string)
    requires AllWhite(before) && AllWhite(after)
    requires s != "" ==> !IsWhitespace(s[0]) && !IsWhitespace(s[|s| - 1])
    ensures Trim(before + s + after) == s
    decreases |after|
  {
    if after == "" {
      assert before + s + after == before + s;
      TrimStartAfter(before, s);
    } else {
      hide Trim;
      var n := |after| - 1;
      TrimBetween(before, s, after[..n]);
      assert before + s + after == (before + s + after[..n]) + [after[n]];
      TrimSnoc(before + s + after[..n], after[n]);
    }
  }

  lemma TrimEmptyExactly(s: string)
    ensures Trim(s) == "" <==> AllWhite(s)
  {
    if AllWhite(s) {
      assert s + "" + "" == s;
      TrimBetween(s, "", "");
    }
    if Trim(s) == "" {
      if TrimStart(s) != "" {
        TrimEndKeepsFront(TrimStart(s));
      }
      TrimStartEmpty(s);
    }
  }

  lemma {:induction false} TrimStartEmpty(s: string)
    requires TrimStart(s) == ""
    ensures AllWhite(s)
  {
    if s != "" {
      TrimStartEmpty(s[1..]);
      assert forall i | 1 <= i < |s| :: s[i] == s[1..][i - 1];
    }
  }

  lemma {:induction false} TrimEndKeepsFront(s: string)
    requires s != "" && !IsWhitespace(s[0])
    ensures TrimEnd(s) != ""
  {
    if IsWhitespace(s[|s| - 1]) {
      TrimEndKeepsFront(s[..|s| - 1]);
    }
  }

  lemma TrimTwice(s: string)
    ensures Trim(Trim(s)) == Trim(s)
  {
    var t := Trim(s);
    if t != "" {
      assert t[0] == TrimStart(s)[0];
    }
  }

  /** What is left of a suffix after trimming is a suffix of what is left of the whole. */
  lemma TrimOfSuffix(s: string, tail: string)
    requires IsSuffix(tail, s) && Trim(tail) != ""
    ensures IsSuffix(Trim(tail), Trim(s))
  {
    TrimStartOfSuffix(s, tail);
    TrimEndOfSuffix(TrimStart(s), TrimStart(tail));
  }

  lemma {:induction false} TrimStartOfSuffix(s: string, tail: string)
    requires IsSuffix(tail, s)
    ensures IsSuffix(TrimStart(tail), TrimStart(s))
    decreases |s|
  {
    if s != "" && IsWhitespace(s[0]) && |tail| < |s| {
      TrimStartOfSuffix(s[1..], tail);
    } else if |tail| == |s| {
      assert tail == s;
    }
  }

  lemma {:induction false} TrimEndOfSuffix(s: string, tail: string)
    requires IsSuffix(tail, s) && TrimEnd(tail) != ""
    ensures IsSuffix(TrimEnd(tail), TrimEnd(s))
    decreases |s|
  {
    assert tail[|tail| - 1] == s[|s| - 1];
    if IsWhitespace(s[|s| - 1]) {
      TrimEndOfSuffix(s[..|s| - 1], tail[..|tail| - 1]);
    }
  }

  // ---------------------------------------------------------------- searching

  predicate OccursAt(s: string, sub: string, i: nat) {
    i + |sub| <= |s| && s[i..i + |sub|] == sub
  }

  predicate Contains(s: string, sub: string) {
    exists i: nat | i <= |s| :: OccursAt(s, sub, i)
  }

  ghost predicate Begins(s: string, prefix: string) {
    exists rest :: s == prefix + rest
  }

  lemma StartsExactly(s: string, prefix: string)
    ensures StartsWith(s, prefix) <==> Begins(s, prefix)
  {
    if StartsWith(s, prefix) {
      assert s == prefix + s[|prefix|..];
    }
  }

  /** `sub` stands in `s` with something before and something after it. */
  ghost predicate Embeds(s: string, sub: string) {
    exists before, after :: s == before + sub + after
  }

  lemma ContainsEmbeds(s: string, sub: string)
    ensures Contains(s, sub) <==> Embeds(s, sub)
  {
    if Contains(s, sub) {
      var i: nat :| i <= |s| && OccursAt(s, sub, i);
      assert s == s[..i] + sub + s[i + |sub|..];
    }
    if Embeds(s, sub) {
      var before, after :| s == before + sub + after;
      assert OccursAt(s, sub, |before|);
    }
  }

  lemma CharEmbeds(s: string, c: char)
    ensures c in s <==> Embeds(s, [c])
  {
    if c in s {
      var i :| 0 <= i < |s| && s[i] == c;
      assert s == s[..i] + [c] + s[i + 1..];
    }
    if Embeds(s, [c]) {
      var before, after :| s == before + [c] + after;
      assert s[|before|] == c;
    }
  }

  predicate StartsWith(s: string, prefix: string) {
    prefix <= s
  }

  lemma SuffixOccurs(a: string, b: string)
    requires IsSuffix(a, b)
    ensures Contains(b, a)
  {
    assert OccursAt(b, a, |b| - |a|);
  }

  lemma OccursAtInContext(a: string, s: string, b: string, sub: string, i: nat)
    requires OccursAt(s, sub, i)
    ensures OccursAt(a + s + b, sub, |a| + i)
  {
    assert (a + s + b)[|a| + i..|a| + i + |sub|] == s[i..i + |sub|];
  }

  lemma ContainsInContext(a: string, s: string, b: string, sub: string)
    requires Contains(s, sub)
    ensures Contains(a + s + b, sub)
  {
    var i: nat :| i <= |s| && OccursAt(s, sub, i);
    OccursAtInContext(a, s, b, sub, i);
  }

  /** `str::find` for a string that is there: the first occurrence. */
  function IndexOf(s: string, sub: string): (i: nat)
    requires Contains(s, sub)
    ensures OccursAt(s, sub, i)
    ensures forall j: nat | j < i :: !OccursAt(s, sub, j)
  {
    if OccursAt(s, sub, 0) then 0
    else
      assert Contains(s[1..], sub) by { OccursLater(s, sub); }
      var k := IndexOf(s[1..], sub);
      assert forall j: nat | 0 < j < k + 1 :: !OccursAt(s, sub, j) by { NotEarlier(s, sub, k); }
      assert s[1..][k..k + |sub|] == s[k + 1..k + 1 + |sub|];
      k + 1
  }

  lemma OccursLater(s: string, sub: string)
    requires Contains(s, sub) && !OccursAt(s, sub, 0)
    ensures s != "" && Contains(s[1..], sub)
  {
    var i: nat :| i <= |s| && OccursAt(s, sub, i);
    assert s[1..][i - 1..i - 1 + |sub|] == s[i..i + |sub|];
    assert OccursAt(s[1..], sub, i - 1);
  }

  lemma NotEarlier(s: string, sub: string, k: nat)
    requires s != "" && forall j: nat | j < k :: !OccursAt(s[1..], sub, j)
    ensures forall j: nat | 0 < j < k + 1 :: !OccursAt(s, sub, j)
  {
    forall j: nat | 0 < j < k + 1 ensures !OccursAt(s, sub, j) {
      if j + |sub| <= |s| {
        assert s[1..][j - 1..j - 1 + |sub|] == s[j..j + |sub|];
      }
      assert !OccursAt(s[1..], sub, j - 1);
    }
  }

  /** The index of the first `c`, or the length. */
  function FirstChar(s: string, c: char): (i: nat)
    ensures i <= |s| && c !in s[..i] && (i < |s| ==> s[i] == c)
  {
    if s == "" || s[0] == c then 0 else FirstChar(s[1..], c) + 1
  }

  lemma {:induction false} FirstCharAfter(a: string, c: char, b: string)
    requires c !in a
    ensures FirstChar(a + [c] + b, c) == |a|
    decreases |a|
  {
    var s := a + [c] + b;
    if a != "" {
      assert s[0] == a[0] && s[1..] == a[1..] + [c] + b;
      FirstCharAfter(a[1..], c, b);
    }
  }

  lemma {:induction false} FirstCharUpTo(s: string, c: char, k: nat)
    requires k < |s| && s[k] == c
    ensures FirstChar(s, c) <= k
    decreases k
  {
    if s[0] != c {
      FirstCharUpTo(s[1..], c, k - 1);
    }
  }

  lemma NoSuchChar(s: string, c: char)
    requires c !in s
    ensures FirstChar(s, c) == |s|
  {
  }

  // ---------------------------------------------------------------- pieces

  /** `splitn(n, c)`. */
  function SplitN(s: string, c: char, n: nat): seq<string>
    decreases n
  {
    var i := FirstChar(s, c);
    if n <= 1 || i == |s| then [s] else [s[..i]] + SplitN(s[i + 1..], c, n - 1)
  }

  /** Pieces put together with a space between them. */
  function Spaced(pieces: seq<string>): string {
    if pieces == [] then "" else if |pieces| == 1 then pieces[0] else pieces[0] + " " + Spaced(pieces[1..])
  }

  lemma SplitNFirst(a: string, c: char, rest: string, n: nat)
    requires c !in a && n > 1
    ensures SplitN(a + [c] + rest, c, n) == [a] + SplitN(rest, c, n - 1)
  {
    FirstCharAfter(a, c, rest);
    assert (a + [c] + rest)[..|a|] == a && (a + [c] + rest)[|a| + 1..] == rest;
  }

  lemma SplitNLast(rest: string, c: char)
    ensures SplitN(rest, c, 1) == [rest]
  {
  }

  lemma SpacedUnfold(pieces: seq<string>, rest: string)
    requires pieces != []
    ensures Spaced(pieces) + " " + rest
         == pieces[0] + [' '] + (if |pieces| == 1 then rest else Spaced(pieces[1..]) + " " + rest)
  {
  }

  lemma {:induction false} SplitNSpaced(pieces: seq<string>, rest: string)
    requires pieces != [] && forall i | 0 <= i < |pieces| :: ' ' !in pieces[i]
    ensures SplitN(Spaced(pieces) + " " + rest, ' ', |pieces| + 1) == pieces + [rest]
    decreases |pieces|
  {
    hide SplitN, Spaced;
    SpacedUnfold(pieces, rest);
    if |pieces| == 1 {
      SplitNFirst(pieces[0], ' ', rest, 2);
      SplitNLast(rest, ' ');
      assert pieces + [rest] == [pieces[0]] + [rest];
    } else {
      SplitNFirst(pieces[0], ' ', Spaced(pieces[1..]) + " " + rest, |pieces| + 1);
      SplitNSpaced(pieces[1..], rest);
      assert pieces + [rest] == [pieces[0]] + (pieces[1..] + [rest]);
    }
  }

  // ---------------------------------------------------------------- words

  function FirstWhite(s: string): (i: nat)
    ensures i <= |s| && (forall k | 0 <= k < i :: !IsWhitespace(s[k])) && (i < |s| ==> IsWhitespace(s[i]))
  {
    if s == "" || IsWhitespace(s[0]) then 0 else FirstWhite(s[1..]) + 1
  }

  /** `split_whitespace`. */
  function Words(s: string): seq<string>
    decreases |s|
  {
    var t := TrimStart(s);
    if t == "" then [] else [t[..FirstWhite(t)]] + Words(t[FirstWhite(t)..])
  }

  predicate IsWord(w: string) {
    w != "" && forall i | 0 <= i < |w| :: !IsWhitespace(w[i])
  }

  lemma {:induction false} FirstWhiteAfter(w: string, rest: string)
    requires (forall i | 0 <= i < |w| :: !IsWhitespace(w[i])) && (rest == "" || IsWhitespace(rest[0]))
    ensures FirstWhite(w + rest) == |w|
    decreases |w|
  {
    if w == "" {
      assert w + rest == rest;
    } else {
      assert (w + rest)[1..] == w[1..] + rest;
      FirstWhiteAfter(w[1..], rest);
    }
  }

  lemma WordFirst(w: string, rest: string)
    requires IsWord(w) && (rest == "" || IsWhitespace(rest[0]))
    ensures Words(w + rest) == [w] + Words(rest)
  {
    FirstWhiteAfter(w, rest);
    assert TrimStart(w + rest) == w + rest;
    assert (w + rest)[..|w|] == w && (w + rest)[|w|..] == rest;
  }

  /** `s` is these words with white space around them, some of it between any two. */
  ghost predicate Parted(s: string, words: seq<string>)
    decreases |words|
  {
    if words == [] then AllWhite(s)
    else exists gap, rest ::
        && s == gap + words[0] + rest && AllWhite(gap)
        && (rest == "" || IsWhitespace(rest[0])) && Parted(rest, words[1..])
  }

  lemma WordsMeans(s: string)
    ensures var t := TrimStart(s);
            Words(s) == if t == "" then [] else [t[..FirstWhite(t)]] + Words(t[FirstWhite(t)..])
  {
  }

  lemma FirstIsWord(t: string)
    requires t != "" && !IsWhitespace(t[0])
    ensures FirstWhite(t) > 0 && IsWord(t[..FirstWhite(t)])
  {
  }

  lemma {:induction false} WordsAreWords(s: string)
    ensures forall i | 0 <= i < |Words(s)| :: IsWord(Words(s)[i])
    decreases |s|
  {
    hide Words, FirstWhite, TrimStart, IsWord;
    var t := TrimStart(s);
    WordsMeans(s);
    if t != "" {
      var rest := t[FirstWhite(t)..];
      FirstIsWord(t);
      WordsAreWords(rest);
      forall i | 0 <= i < |Words(s)| ensures IsWord(Words(s)[i]) {
        assert i > 0 ==> Words(s)[i] == Words(rest)[i - 1];
      }
    }
  }

  lemma WordsOfNothing(s: string)
    ensures Words(s) == [] <==> AllWhite(s)
  {
    if AllWhite(s) {
      assert s + "" == s;
      TrimStartAfter(s, "");
    }
    if Words(s) == [] {
      TrimStartEmpty(s);
    }
  }

  lemma WordsAfterGap(gap: string, s: string)
    requires AllWhite(gap)
    ensures Words(gap + s) == Words(s)
  {
    TrimStartAfter(gap, s);
  }

  lemma FirstWordOf(s: string) returns (gap: string, rest: string)
    requires Words(s) != []
    ensures s == gap + Words(s)[0] + rest && AllWhite(gap) && (rest == "" || IsWhitespace(rest[0]))
    ensures Words(rest) == Words(s)[1..]
  {
    hide Words, TrimStart, AllWhite, FirstWhite;
    var t := TrimStart(s);
    WordsMeans(s);
    TrimStartParts(s);
    gap, rest := s[..|s| - |t|], t[FirstWhite(t)..];
    assert t == t[..FirstWhite(t)] + rest && s == gap + t;
  }

  lemma PartedFirst(s: string, words: seq<string>, gap: string, rest: string)
    requires words != [] && s == gap + words[0] + rest && AllWhite(gap)
    requires (rest == "" || IsWhitespace(rest[0])) && Parted(rest, words[1..])
    ensures Parted(s, words)
  {
  }

  lemma PartedWords(s: string, words: seq<string>, gap: string, rest: string)
    requires words != [] && IsWord(words[0]) && s == gap + words[0] + rest && AllWhite(gap)
    requires (rest == "" || IsWhitespace(rest[0])) && Words(rest) == words[1..]
    ensures Words(s) == words
  {
    hide Words, AllWhite;
    assert s == gap + (words[0] + rest);
    WordsAfterGap(gap, words[0] + rest);
    WordFirst(words[0], rest);
    assert [words[0]] + words[1..] == words;
  }

  /** The words of a string are the ones it is parted into. */
  lemma {:induction false} WordsExactly(s: string, words: seq<string>)
    requires forall i | 0 <= i < |words| :: IsWord(words[i])
    ensures Words(s) == words <==> Parted(s, words)
    decreases |words|
  {
    hide Words, AllWhite, IsWord;
    if words == [] {
      WordsOfNothing(s);
    } else {
      if Words(s) == words {
        var gap, rest := FirstWordOf(s);
        WordsExactly(rest, words[1..]);
        PartedFirst(s, words, gap, rest);
      }
      if Parted(s, words) {
        var gap, rest :| s == gap + words[0] + rest && AllWhite(gap)
                         && (rest == "" || IsWhitespace(rest[0])) && Parted(rest, words[1..]);
        WordsExactly(rest, words[1..]);
        PartedWords(s, words, gap, rest);
      }
    }
  }

  lemma WordsSkipSpace(s: string)
    ensures Words(" " + s) == Words(s)
  {
    assert (" " + s)[1..] == s;
    assert TrimStart(" " + s) == TrimStart(s);
  }

  lemma LastWord(w: string)
    requires IsWord(w)
    ensures Words(w) == [w] && Words("") == []
  {
    assert w + "" == w;
    WordFirst(w, "");
  }

  lemma {:induction false} WordsSpaced(words: seq<string>)
    requires words != [] && forall i | 0 <= i < |words| :: IsWord(words[i])
    ensures Words(Spaced(words)) == words
    decreases |words|
  {
    hide Words;
    if |words| == 1 {
      LastWord(words[0]);
    } else {
      var tail := Spaced(words[1..]);
      assert Spaced(words) == words[0] + (" " + tail);
      WordFirst(words[0], " " + tail);
      WordsSkipSpace(tail);
      WordsSpaced(words[1..]);
      assert [words[0]] + words[1..] == words;
    }
  }

  // ---------------------------------------------------------------- trimming a whole

  lemma {:induction false} TrimEndConcat(a: string, b: string)
    requires TrimEnd(b) != ""
    ensures TrimEnd(a + b) == a + TrimEnd(b)
    decreases |b|
  {
    assert (a + b)[|a + b| - 1] == b[|b| - 1];
    if IsWhitespace(b[|b| - 1]) {
      assert (a + b)[..|a + b| - 1] == a + b[..|b| - 1];
      TrimEndConcat(a, b[..|b| - 1]);
    }
  }

  lemma TrimEndSnoc(a: string, w: char)
    requires IsWhitespace(w)
    ensures TrimEnd(a + [w]) == TrimEnd(a)
  {
    assert (a + [w])[..|a|] == a;
  }

  lemma {:induction false} TrimStartSnoc(a: string, w: char)
    requires IsWhitespace(w)
    ensures TrimStart(a + [w]) == if TrimStart(a) == "" then "" else TrimStart(a) + [w]
    decreases |a|
  {
    if a == "" {
      assert a + [w] == [w] && [w][1..] == "";
      assert TrimStart("") == "";
    } else if IsWhitespace(a[0]) {
      assert (a + [w])[1..] == a[1..] + [w];
      TrimStartSnoc(a[1..], w);
    }
  }

  lemma TrimSnoc(a: string, w: char)
    requires IsWhitespace(w)
    ensures Trim(a + [w]) == Trim(a)
  {
    TrimStartSnoc(a, w);
    if TrimStart(a) != "" {
      TrimEndSnoc(TrimStart(a), w);
    }
  }

  // ---------------------------------------------------------------- numbers

  predicate AllDigits(s: string) {
    forall i | 0 <= i < |s| :: IsDigit(s[i])
  }

  function NumberOf(s: string): nat
    requires AllDigits(s)
  {
    if s == "" then 0 else 10 * NumberOf(s[..|s| - 1]) + (s[|s| - 1] as nat - '0' as nat)
  }

  /** A number as `format!` prints it. */
  function Decimal(n: nat): (s: string)
    ensures s != "" && AllDigits(s)
  {
    var last := ['0' + (n % 10) as char];
    if n < 10 then last else Decimal(n / 10) + last
  }

  /** A number as it is written by hand: the last digit is for the remainder, what is before it for the quotient. */
  ghost predicate Denotes(digits: string, n: nat) {
    if digits == "" then n == 0
    else digits[|digits| - 1] == "0123456789"[n % 10] && Denotes(digits[..|digits| - 1], n / 10)
  }

  lemma {:induction false} NumberExactly(digits: string, n: nat)
    ensures Denotes(digits, n) <==> AllDigits(digits) && NumberOf(digits) == n
  {
    if digits != "" {
      var init, last := digits[..|digits| - 1], digits[|digits| - 1];
      NumberExactly(init, n / 10);
      assert AllDigits(digits) <==> AllDigits(init) && IsDigit(last) by {
        assert digits == init + [last];
      }
    }
  }

  /** What is printed for a number says that number, without a leading zero, and is read as it. */
  lemma {:induction false} DecimalDenotes(n: nat)
    ensures Denotes(Decimal(n), n) && (Decimal(n)[0] == '0' ==> Decimal(n) == "0")
    ensures NumberOf(Decimal(n)) == n
  {
    var last := ['0' + (n % 10) as char];
    if n < 10 {
      assert last[..0] == "" && Decimal(n) == last;
    } else {
      DecimalDenotes(n / 10);
      assert Decimal(n) == Decimal(n / 10) + last && (Decimal(n / 10) + last)[..|Decimal(n / 10)|] == Decimal(n / 10);
    }
    NumberExactly(Decimal(n), n);
  }

  // ---------------------------------------------------------------- where a string can occur

  ghost predicate NoWhite(s: string) {
    forall i | 0 <= i < |s| :: !IsWhitespace(s[i])
  }

  lemma PartNeedsChars(l: string, sub: string, k: nat)
    requires k < |sub| && sub[k] !in l
    ensures !Contains(l, sub)
  {
    forall i: nat | i <= |l| ensures !OccursAt(l, sub, i) {
      if i + |sub| <= |l| {
        assert l[i..i + |sub|][k] == l[i + k];
      }
    }
  }

  lemma SpacedApart(l: string, w: string, j: nat, k: nat)
    requires j <= k < j + |w| && k < |l| && l[k] == ' ' && ' ' !in w
    ensures !OccursAt(l, w + " ", j)
  {
    if j + |w| + 1 <= |l| {
      assert l[j..j + |w| + 1][k - j] == l[k] && (w + " ")[k - j] == w[k - j];
    }
  }

  lemma NotFollowedBySpace(l: string, w: string, j: nat)
    requires j + |w| < |l| && l[j + |w|] != ' '
    ensures !OccursAt(l, w + " ", j)
  {
    if j + |w| + 1 <= |l| {
      assert l[j..j + |w| + 1][|w|] == l[j + |w|];
    }
  }

  lemma OtherStart(l: string, w: string, j: nat)
    requires w != "" && j < |l| && l[j] != w[0]
    ensures !OccursAt(l, w + " ", j)
  {
    if j + |w| + 1 <= |l| {
      assert l[j..j + |w| + 1][0] == l[j];
    }
  }

  lemma NoneStartsIn(before: string, rest: string, sub: string)
    requires sub != "" && sub[0] !in before
    ensures forall j: nat | j < |before| :: !OccursAt(before + rest, sub, j)
  {
    var l := before + rest;
    forall j: nat | j < |before| ensures !OccursAt(l, sub, j) {
      if j + |sub| <= |l| {
        assert l[j..j + |sub|][0] == before[j];
      }
    }
  }

  lemma IndexIs(l: string, sub: string, i: nat)
    requires OccursAt(l, sub, i) && forall j: nat | j < i :: !OccursAt(l, sub, j)
    ensures Contains(l, sub) && IndexOf(l, sub) == i
  {
  }

  lemma PieceBeforeSpace(piece: string, source: string)
    requires |piece| > |source| && piece[..|source|] == source && piece[|source|] == ' ' && NoWhite(source)
    ensures piece[..FirstChar(piece, ' ')] == source
  {
    assert piece == source + [' '] + piece[|source| + 1..];
    FirstCharAfter(source, ' ', piece[|source| + 1..]);
  }
}
