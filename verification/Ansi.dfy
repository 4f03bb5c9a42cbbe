/**
 The stripper of terminal control sequences in log lines (`strip_ansi_escapes` in
 panel/agent/src/routes/logs.rs). Control sequences (CSI) follow section 5.4 of ECMA-48.
 */
module Ansi {
  import opened Text

  const ESC := '\U{1B}'
  const BEL := '\U{07}'

  // ---------------------------------------------------------------- the stripper

  /** What is left after the control sequence that "ESC [" has opened: everything behind the first letter. */
  function SkipCsi(s: string): (r: string)
    ensures IsSuffix(r, s)
  {
    if s == "" then s else if IsLetter(s[0]) then s[1..] else SkipCsi(s[1..])
  }

  /** What is left after the string that "ESC ]" has opened: it ends with BEL, with ESC \, or with any other ESC. */
  function SkipOsc(s: string): (r: string)
    ensures IsSuffix(r, s)
  {
    if s == "" then s
    else if s[0] == BEL then s[1..]
    else if s[0] == ESC then if |s| > 1 && s[1] == '\\' then s[2..] else s[1..]
    else SkipOsc(s[1..])
  }

  /** What is left after the ESC at the start of `s` and what belongs to it. */
  function SkipEscape(s: string): (r: string)
    requires s != "" && s[0] == ESC
    ensures IsSuffix(r, s) && |r| < |s|
  {
    if |s| == 1 then ""
    else if s[1] == '[' then SkipCsi(s[2..])
    else if s[1] == ']' then SkipOsc(s[2..])
    else s[2..]
  }

  function Strip(s: string): string
    decreases |s|
  {
    if s == "" then ""
    else if s[0] == ESC then Strip(SkipEscape(s))
    else [s[0]] + Strip(s[1..])
  }

  /** The two inner loops, on an index into the text. */
  method PastCsi(s: string, start: nat) returns (i: nat)
    requires start <= |s|
    ensures start <= i <= |s| && s[i..] == SkipCsi(s[start..])
  {
    i := start;
    while i < |s|
      invariant start <= i <= |s| && SkipCsi(s[start..]) == SkipCsi(s[i..])
    {
      var c := s[i];
      assert s[i..][1..] == s[i + 1..];
      i := i + 1;
      if IsLetter(c) || c == 'H' || c == 'J' || c == 'K' {
        break;
      }
    }
  }

  lemma OscUnfold(s: string, i: nat)
    requires i < |s|
    ensures SkipOsc(s[i..])
         == if s[i] == BEL then s[i + 1..]
            else if s[i] != ESC then SkipOsc(s[i + 1..])
            else if i + 1 < |s| && s[i + 1] == '\\' then s[i + 2..]
            else s[i + 1..]
  {
    var rest := s[i..];
    assert rest[0] == s[i] && rest[1..] == s[i + 1..];
    if |rest| > 1 {
      assert rest[1] == s[i + 1] && rest[2..] == s[i + 2..];
    }
  }

  method PastOsc(s: string, start: nat) returns (i: nat)
    requires start <= |s|
    ensures start <= i <= |s| && s[i..] == SkipOsc(s[start..])
  {
    hide SkipOsc;
    i := start;
    while i < |s|
      invariant start <= i <= |s| && SkipOsc(s[start..]) == SkipOsc(s[i..])
    {
      var c := s[i];
      OscUnfold(s, i);
      i := i + 1;
      if c == BEL {
        break;
      }
      if c == ESC {
        if i < |s| && s[i] == '\\' {
          i := i + 1;
        }
        break;
      }
    }
    if i == |s| {
      OscNothing(s);
    }
  }

  lemma OscNothing(s: string)
    ensures s[|s|..] == SkipOsc(s[|s|..])
  {
  }

  method StripAnsiEscapes(s: string) returns (result: string)
    ensures result == Strip(s)
  {
    result := "";
    var i := 0;
    while i < |s|
      invariant 0 <= i <= |s| && Strip(s) == result + Strip(s[i..])
    {
      var c := s[i];
      ghost var rest := s[i..];
      assert rest[1..] == s[i + 1..] && (|rest| > 1 ==> rest[2..] == s[i + 2..]);
      i := i + 1;
      if c == ESC {
        if i < |s| {
          if s[i] == '[' {
            i := PastCsi(s, i + 1);
          } else if s[i] == ']' {
            i := PastOsc(s, i + 1);
          } else {
            i := i + 1;
          }
        }
      } else {
        result := result + [c];
      }
    }
  }

  // ---------------------------------------------------------------- on every input

  predicate IsSubsequence(a: string, b: string) {
    a == "" || (b != "" && if a[0] == b[0] then IsSubsequence(a[1..], b[1..]) else IsSubsequence(a, b[1..]))
  }

  lemma {:induction false} SubsequenceOfMore(a: string, head: string, b: string)
    requires IsSubsequence(a, b)
    ensures IsSubsequence(a, head + b)
    decreases |head|, |a|
  {
    if head == "" {
      assert head + b == b;
    } else if a != "" {
      assert (head + b)[1..] == head[1..] + b;
      if a[0] == head[0] {
        SubsequenceTail(a, b);
        SubsequenceOfMore(a[1..], head[1..], b);
      } else {
        SubsequenceOfMore(a, head[1..], b);
      }
    }
  }

  lemma {:induction false} SubsequenceTail(a: string, b: string)
    requires IsSubsequence(a, b) && a != ""
    ensures IsSubsequence(a[1..], b)
    decreases |b|
  {
    if a[0] == b[0] {
      assert b == [b[0]] + b[1..];
      if |a| > 1 {
        if a[1] == b[0] {
          SubsequenceTail(a[1..], b[1..]);
          assert a[1..][1..] == a[2..];
        }
      }
    } else {
      SubsequenceTail(a, b[1..]);
      if |a| > 1 && a[1] == b[0] {
        SubsequenceTail(a[1..], b[1..]);
      }
    }
  }

  /** The output has no ESC and takes characters of the input in their order. */
  lemma {:induction false} CleanSubsequence(s: string)
    ensures ESC !in Strip(s) && IsSubsequence(Strip(s), s)
    decreases |s|
  {
    if s != "" {
      if s[0] == ESC {
        var r := SkipEscape(s);
        CleanSubsequence(r);
        assert s == s[..|s| - |r|] + r;
        SubsequenceOfMore(Strip(r), s[..|s| - |r|], r);
      } else {
        CleanSubsequence(s[1..]);
      }
    }
  }

  lemma StripPlain(s: string)
    requires s != "" && s[0] != ESC
    ensures Strip(s) == [s[0]] + Strip(s[1..])
  {
  }

  lemma {:induction false} CleanIsKept(t: string, rest: string)
    requires ESC !in t
    ensures Strip(t + rest) == t + Strip(rest)
    decreases |t|
  {
    hide Strip;
    if t == "" {
      assert t + rest == rest;
    } else {
      assert (t + rest)[1..] == t[1..] + rest;
      StripPlain(t + rest);
      CleanIsKept(t[1..], rest);
      assert t == [t[0]] + t[1..];
    }
  }

  lemma StripTwice(s: string)
    ensures Strip(Strip(s)) == Strip(s)
  {
    CleanSubsequence(s);
    CleanIsKept(Strip(s), "");
    assert Strip(s) + "" == Strip(s);
  }

  // ---------------------------------------------------------------- well-formed sequences

  datatype Token =
    | Plain(text: string)
    | Csi(params: string, final: char)
    | Osc(body: string, bel: bool)
    | TwoChars(second: char)

  /** `params` are the parameter and intermediate bytes; the stripper relies on the final byte being a letter. */
  ghost predicate WellFormed(k: Token) {
    match k
    case Plain(text) => ESC !in text
    case Csi(params, final) => (forall i | 0 <= i < |params| :: !IsLetter(params[i])) && IsLetter(final)
    case Osc(body, _) => ESC !in body && BEL !in body
    case TwoChars(second) => second != '[' && second != ']'
  }

  function Render(k: Token): string {
    match k
    case Plain(text) => text
    case Csi(params, final) => [ESC, '['] + params + [final]
    case Osc(body, bel) => [ESC, ']'] + body + (if bel then [BEL] else [ESC, '\\'])
    case TwoChars(second) => [ESC, second]
  }

  function RenderAll(tokens: seq<Token>): string {
    if tokens == [] then "" else Render(tokens[0]) + RenderAll(tokens[1..])
  }

  function PlainText(tokens: seq<Token>): string {
    if tokens == [] then "" else (if tokens[0].Plain? then tokens[0].text else "") + PlainText(tokens[1..])
  }

  lemma {:induction false} CsiSkipped(params: string, final: char, rest: string)
    requires (forall i | 0 <= i < |params| :: !IsLetter(params[i])) && IsLetter(final)
    ensures SkipCsi(params + [final] + rest) == rest
    decreases |params|
  {
    var s := params + [final] + rest;
    if params == "" {
      assert s[1..] == rest;
    } else {
      assert s[1..] == params[1..] + [final] + rest;
      CsiSkipped(params[1..], final, rest);
    }
  }

  lemma {:induction false} OscSkipped(body: string, bel: bool, rest: string)
    requires ESC !in body && BEL !in body
    ensures SkipOsc(body + (if bel then [BEL] else [ESC, '\\']) + rest) == rest
    decreases |body|
  {
    var end := if bel then [BEL] else [ESC, '\\'];
    var s := body + end + rest;
    if body == "" {
      assert s[|end|..] == rest;
    } else {
      assert s[1..] == body[1..] + end + rest;
      OscSkipped(body[1..], bel, rest);
    }
  }

  lemma StripSequence(s: string, rest: string)
    requires s != "" && s[0] == ESC && SkipEscape(s) == rest
    ensures Strip(s) == Strip(rest)
  {
  }

  lemma TokenSkipped(k: Token, rest: string)
    requires WellFormed(k) && !k.Plain?
    ensures var s := Render(k) + rest; s != "" && s[0] == ESC && SkipEscape(s) == rest
  {
    hide SkipCsi, SkipOsc;
    var s := Render(k) + rest;
    match k {
      case Csi(params, final) =>
        assert s[1] == '[' && s[2..] == params + [final] + rest;
        CsiSkipped(params, final, rest);
      case Osc(body, bel) =>
        assert s[1] == ']' && s[2..] == body + (if bel then [BEL] else [ESC, '\\']) + rest;
        OscSkipped(body, bel, rest);
      case TwoChars(second) => assert s[1] == second && s[2..] == rest;
    }
  }

  lemma StripToken(k: Token, rest: string)
    requires WellFormed(k)
    ensures Strip(Render(k) + rest) == (if k.Plain? then k.text else "") + Strip(rest)
  {
    hide SkipEscape;
    if k.Plain? {
      CleanIsKept(k.text, rest);
    } else {
      TokenSkipped(k, rest);
      StripSequence(Render(k) + rest, rest);
      assert "" + Strip(rest) == Strip(rest);
    }
  }

  /** Any mixture of text and well-formed sequences is stripped to exactly the text. */
  lemma {:induction false} ExactlyTheText(tokens: seq<Token>)
    requires forall i | 0 <= i < |tokens| :: WellFormed(tokens[i])
    ensures Strip(RenderAll(tokens)) == PlainText(tokens)
    decreases |tokens|
  {
    if tokens != [] {
      StripToken(tokens[0], RenderAll(tokens[1..]));
      ExactlyTheText(tokens[1..]);
    }
  }

  // ---------------------------------------------------------------- outside the condition

  lemma {:induction false} CsiRunsOn(params: string, t: string)
    requires forall i | 0 <= i < |params| :: !IsLetter(params[i])
    ensures SkipCsi(params + t) == SkipCsi(t)
    decreases |params|
  {
    if params == "" {
      assert params + t == t;
    } else {
      assert (params + t)[1..] == params[1..] + t;
      CsiRunsOn(params[1..], t);
    }
  }

  /**
   A control sequence may also end with one of @ [ \ ] ^ _ ` { | } ~. The stripper then eats
   the following text up to its first letter: the text survives exactly if the final byte
   is a letter or there is no text.
   */
  lemma FinalByteMustBeLetter(params: string, final: char, t: string)
    requires forall i | 0 <= i < |params| :: !IsLetter(params[i])
    requires ESC !in t
    ensures Strip([ESC, '['] + params + [final] + t) == t <==> IsLetter(final) || t == ""
  {
    hide Strip, SkipCsi;
    LetterEnds(params, final, t);
    if !IsLetter(final) {
      OpenSequence(params + [final], t);
      assert [ESC, '['] + (params + [final]) + t == [ESC, '['] + params + [final] + t;
      TextEaten(t);
    }
  }

  lemma LetterEnds(params: string, final: char, t: string)
    requires forall i | 0 <= i < |params| :: !IsLetter(params[i])
    requires ESC !in t
    ensures IsLetter(final) ==> Strip([ESC, '['] + params + [final] + t) == t
  {
    if IsLetter(final) {
      StripToken(Csi(params, final), t);
      CleanIsKept(t, "");
      assert t + "" == t;
    }
  }

  lemma TextEaten(t: string)
    requires ESC !in t
    ensures Strip(SkipCsi(t)) == t <==> t == ""
  {
    var r := SkipCsi(t);
    SkipCsiShrinks(t);
    CleanIsKept(r, "");
    assert r + "" == r;
  }

  lemma OpenSequence(params: string, t: string)
    requires forall i | 0 <= i < |params| :: !IsLetter(params[i])
    ensures Strip([ESC, '['] + params + t) == Strip(SkipCsi(t))
  {
    hide Strip, SkipCsi;
    var s := [ESC, '['] + params + t;
    assert s[0] == ESC && s[1] == '[' && s[2..] == params + t;
    CsiRunsOn(params, t);
    StripSequence(s, SkipCsi(t));
  }

  lemma SkipCsiShrinks(t: string)
    ensures t != "" ==> |SkipCsi(t)| < |t|
    ensures forall c | c in SkipCsi(t) :: c in t
  {
    SkipCsiTakes(t);
    hide SkipCsi;
    var r := SkipCsi(t);
    assert r == t[|t| - |r|..];
    assert forall c | c in r :: c in t[|t| - |r|..];
  }

  lemma SkipCsiTakes(t: string)
    ensures t != "" ==> |SkipCsi(t)| < |t|
  {
  }
}
