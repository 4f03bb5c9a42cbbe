/**
 What a reader finds in a .env file after the site installers have edited it. The readers
 know nothing of the editors (panel/agent/src/services/cms.rs): they take the first line
 for a key and what stands behind its equals sign.
 */
module EnvReaders {
  import opened Wrappers
  import opened Text
  import opened Lines
  import opened EnvFile

  // ---------------------------------------------------------------- KEY=value

  /** What stands behind "KEY=" in the first line that begins so. */
  function EnvText(lines: seq<string>, key: string): Option<string> {
    match Find(lines, l => StartsWith(l, key + "="))
    case None => None
    case Some(l) => Some(l[|key| + 1..])
  }

  predicate InQuotes(text: string) {
    |text| >= 2 && text[0] == '"' && text[|text| - 1] == '"'
  }

  /** A reader takes one pair of quotes off. */
  function EnvRead(lines: seq<string>, key: string): Option<string> {
    match EnvText(lines, key)
    case None => None
    case Some(text) => Some(if InQuotes(text) then text[1..|text| - 1] else text)
  }

  /** What an edit for a key leaves in the lines of the file. */
  ghost predicate EnvHolds(lines: seq<string>, key: string, value: string) {
    && EnvText(lines, key) == Some(if ' ' in value then "\"" + value + "\"" else value)
    && (EnvRead(lines, key) == Some(value) <==> ' ' in value || !InQuotes(value))
    && (forall i | 0 <= i < |lines| :: !StartsWith(lines[i], "# " + key + "="))
    && (forall i | 0 <= i < |lines| && StartsWith(lines[i], key + "=") ::
          lines[i] == key + "=" + (if ' ' in value then "\"" + value + "\"" else value))
  }

  lemma {:induction false} FindCarried(lines: seq<string>, p: string -> bool, line: string)
    requires line in lines && p(line) && forall i | 0 <= i < |lines| && p(lines[i]) :: lines[i] == line
    ensures Find(lines, p) == Some(line)
    decreases |lines|
  {
    if !p(lines[0]) {
      FindCarried(lines[1..], p, line);
    }
  }

  lemma CommentedIsNotActive(key: string, text: string)
    requires IsEnvKey(key)
    ensures !StartsWith(key + "=" + text, "# " + key + "=")
  {
    var l, c := key + "=" + text, "# " + key;
    if StartsWith(l, c + "=") {
      assert l[..|key| + 1] == key + "=";
      assert c[..2] == "# " && c[2..] == key;
      OneKeyBeforeEquals(l, key, c);
    }
  }

  lemma CarriedIsHeld(lines: seq<string>, key: string, value: string)
    requires IsEnvKey(key) && Carries(lines, IsEnvLine(key), EnvLine(key, value))
    ensures EnvHolds(lines, key, value)
  {
    var text, line := if ' ' in value then "\"" + value + "\"" else value, EnvLine(key, value);
    assert line == key + "=" + text && line[..|key| + 1] == key + "=" && line[|key| + 1..] == text;
    CommentedIsNotActive(key, text);
    forall i | 0 <= i < |lines| && IsEnvLine(key)(lines[i]) ensures lines[i] == line {
    }
    FindCarried(lines, l => StartsWith(l, key + "="), line);
    if ' ' in value {
      assert text[0] == '"' && text[|text| - 1] == '"' && text[1..|text| - 1] == value;
    } else if InQuotes(value) {
      assert |value[1..|value| - 1]| < |value|;
    }
  }

  /**
   After a chain of edits for distinct keys a reader finds each value behind its key, in
   quotes exactly if there is a space in it; with the quotes taken off it is the value that
   was set, exactly if it has a space or is not in quotes itself.
   */
  lemma EnvReadBack(content: string, settings: seq<Setting>, k: nat)
    requires EnvSettings(settings) && k < |settings|
    ensures EnvHolds(Split(EnvChain(content, settings)), settings[k].key, settings[k].value)
  {
    hide Split, EnvChain, Carries, EnvHolds;
    EnvChainCarries(content, settings, k);
    CarriedIsHeld(Split(EnvChain(content, settings)), settings[k].key, settings[k].value);
  }

  lemma EnvReadAfterEdit(content: string, key: string, value: string)
    requires IsEnvKey(key) && IsEnvValue(value)
    ensures EnvHolds(Split(Edited(content, IsEnvLine(key), EnvLine(key, value))), key, value)
  {
    hide *;
    EnvProper(key, value);
    EditCarries(content, IsEnvLine(key), EnvLine(key, value));
    CarriedIsHeld(Split(Edited(content, IsEnvLine(key), EnvLine(key, value))), key, value);
  }

  // ---------------------------------------------------------------- key = value

  /** An active line for the key: the key, with white space around it, before the first equals sign. */
  predicate IsCiActive(l: string, key: string) {
    '=' in l && Trim(l[..FirstChar(l, '=')]) == key
  }

  /** What stands behind the first equals sign of the first active line, trimmed. */
  function CiRead(lines: seq<string>, key: string): Option<string> {
    match Find(lines, l => IsCiActive(l, key))
    case None => None
    case Some(l) =>
      var e := FirstChar(l, '=');
      if e == |l| then None else Some(Trim(l[e + 1..]))
  }

  predicate IsMark(mark: string) {
    mark == "" || mark == "#" || mark == "# "
  }

  /** A line for the key, commented or not, spelled out. */
  ghost predicate IsCiSpelled(l: string, key: string, before: string, mark: string, mid: string, rest: string) {
    && l == before + mark + key + mid + "=" + rest
    && AllWhite(before) && AllWhite(mid) && IsMark(mark)
  }

  lemma HeadSurvives(key: string, mid: string, rest: string) returns (tail: string)
    requires AllWhite(mid)
    ensures TrimEnd(key + mid + "=" + rest) == key + mid + "=" + tail
  {
    var head := key + mid + "=";
    TrimEndKeepsHead(head, rest);
    tail := TrimEnd(head + rest)[|head|..];
  }

  lemma AssignsSpelled(key: string, mid: string, tail: string)
    requires AllWhite(mid)
    ensures Assigns(key + mid + "=" + tail, key)
  {
    var t := key + mid + "=" + tail;
    assert t[..|key|] == key && t[|key|..] == mid + ("=" + tail);
    TrimStartAfter(mid, "=" + tail);
  }

  lemma KeyNotTrimmed(key: string, rest: string)
    requires IsCiKey(key)
    ensures TrimStart(key + rest) == key + rest && TrimHashes(key + rest) == key + rest
  {
    assert (key + rest)[0] == key[0];
  }

  lemma MarkTaken(mark: string, key: string, rest: string)
    requires IsCiKey(key) && IsMark(mark)
    ensures Uncommented(mark + (key + rest)) == if mark == "" then key + rest else TrimEnd(key + rest)
  {
    KeyNotTrimmed(key, rest);
    hide TrimStart, TrimEnd, TrimHashes;
    var k := key + rest;
    if mark == "" {
      assert mark + k == k && k[0] == key[0];
    } else {
      HashTaken(k);
      assert "# " + k == "#" + (" " + k);
      if mark == "# " {
        HashTaken(" " + k);
        TrimStartAfter(" ", k);
      }
    }
  }

  lemma HashTaken(s: string)
    ensures StartsWith("#" + s, "#") && TrimHashes("#" + s) == TrimHashes(s)
    ensures StartsWith(s, " ") ==> TrimHashes(s) == s
  {
    assert ("#" + s)[1..] == s;
  }

  lemma SpelledTrimmed(key: string, before: string, mark: string, mid: string, rest: string) returns (tail: string)
    requires IsCiKey(key) && AllWhite(before) && AllWhite(mid) && IsMark(mark)
    ensures Trim(before + (mark + key + mid + "=" + rest)) == mark + (key + (mid + "=" + tail))
  {
    hide TrimStart, TrimEnd;
    var m := mark + key + mid + "=" + rest;
    assert m[0] == (if mark == "" then key[0] else '#');
    TrimStartAfter(before, m);
    SolidStart(m);
    tail := HeadSurvives(mark + key, mid, rest);
    assert mark + key + mid + "=" + tail == mark + (key + (mid + "=" + tail));
  }

  lemma UncommentedAssigns(key: string, mark: string, mid: string, tail: string)
    requires IsCiKey(key) && AllWhite(mid) && IsMark(mark)
    ensures Assigns(Uncommented(mark + (key + (mid + "=" + tail))), key)
  {
    hide Assigns, Uncommented, TrimEnd;
    MarkTaken(mark, key, mid + "=" + tail);
    assert key + (mid + "=" + tail) == key + mid + "=" + tail;
    var tail2 := HeadSurvives(key, mid, tail);
    AssignsSpelled(key, mid, tail);
    AssignsSpelled(key, mid, tail2);
  }

  lemma SpelledIsForKey(l: string, key: string, before: string, mark: string, mid: string, rest: string)
    requires IsCiKey(key) && IsCiSpelled(l, key, before, mark, mid, rest)
    ensures IsCiLine(key)(l)
  {
    hide Assigns, Trim, Uncommented, IsCiKey;
    assert l == before + (mark + key + mid + "=" + rest);
    var tail := SpelledTrimmed(key, before, mark, mid, rest);
    UncommentedAssigns(key, mark, mid, tail);
    var t := Trim(l);
    assert t == (mark + key) + (mid + "=" + tail);
    assert t[..|mark + key|] == mark + key;
  }

  lemma SolidStart(s: string)
    requires s != "" && !IsWhitespace(s[0])
    ensures TrimStart(s) == s
  {
  }

  lemma AssignsMeans(t: string, key: string) returns (mid: string, rest: string)
    requires StartsWith(t, key) && Assigns(t, key)
    ensures AllWhite(mid) && t == key + mid + "=" + rest
  {
    hide TrimStart;
    var tail := t[|key|..];
    TrimStartParts(tail);
    var s := TrimStart(tail);
    mid, rest := tail[..|tail| - |s|], s[1..];
    assert s[..1] == "=" && tail == mid + s;
    assert t == key + tail;
  }

  /** The editor takes exactly these lines for the key's. */
  lemma CiLineExactly(l: string, key: string)
    requires IsCiKey(key)
    ensures IsCiLine(key)(l) <==> exists before, mark, mid, rest :: IsCiSpelled(l, key, before, mark, mid, rest)
  {
    hide Assigns, Uncommented, Trim, IsCiSpelled;
    if before, mark, mid, rest :| IsCiSpelled(l, key, before, mark, mid, rest) {
      SpelledIsForKey(l, key, before, mark, mid, rest);
    }
    if IsCiLine(key)(l) {
      var before, after := TrimParts(l);
      var t := Trim(l);
      var mark := if StartsWith(t, "# " + key) then "# " else if StartsWith(t, "#" + key) then "#" else "";
      var mid, rest := TextSpelled(t, key, mark);
      Spell(l, key, before, mark, mid, rest + after);
    }
  }

  lemma Spell(l: string, key: string, before: string, mark: string, mid: string, rest: string)
    requires AllWhite(before) && AllWhite(mid) && IsMark(mark)
    requires l == before + (mark + key + mid + "=" + rest)
    ensures IsCiSpelled(l, key, before, mark, mid, rest)
  {
  }

  lemma TextSpelled(t: string, key: string, mark: string) returns (mid: string, rest: string)
    requires IsCiKey(key) && IsMark(mark) && StartsWith(t, mark + key) && Assigns(Uncommented(t), key)
    ensures AllWhite(mid) && t == mark + key + mid + "=" + rest
  {
    hide Assigns, Uncommented, TrimEnd;
    var more := t[|mark + key|..];
    assert t == mark + (key + more);
    MarkTaken(mark, key, more);
    var u := Uncommented(t);
    assert u <= key + more;
    AssignsStarts(u, key);
    var rest0;
    mid, rest0 := AssignsMeans(u, key);
    rest := rest0 + (key + more)[|u|..];
  }

  lemma AssignsStarts(u: string, key: string)
    requires Assigns(u, key)
    ensures StartsWith(u, key)
  {
  }

  // ---------------------------------------------------------------- reading an edited file

  ghost predicate CiHolds(lines: seq<string>, key: string, value: string) {
    && CiRead(lines, key) == Some(Trim(value))
    && (CiRead(lines, key) == Some(value) <==>
          value == "" || (!IsWhitespace(value[0]) && !IsWhitespace(value[|value| - 1])))
    && (forall i, before, mark, mid, rest |
          0 <= i < |lines| && IsCiSpelled(lines[i], key, before, mark, mid, rest) ::
          lines[i] == key + " = " + value)
  }

  lemma ActiveIsForKey(l: string, key: string)
    requires IsCiKey(key) && IsCiActive(l, key)
    ensures IsCiLine(key)(l)
  {
    hide Trim, IsCiLine;
    var e := FirstChar(l, '=');
    FirstCharFound(l, '=');
    var before, after := TrimParts(l[..e]);
    assert l == l[..e] + "=" + l[e + 1..];
    Spell(l, key, before, "", after, l[e + 1..]);
    SpelledIsForKey(l, key, before, "", after, l[e + 1..]);
  }

  lemma FirstCharFound(l: string, c: char)
    requires c in l
    ensures FirstChar(l, c) < |l|
  {
    var i :| 0 <= i < |l| && l[i] == c;
    FirstCharUpTo(l, c, i);
  }

  lemma NewLineActive(key: string, value: string)
    requires IsCiKey(key)
    ensures var l := CiLine(key, value);
            && IsCiActive(l, key) && FirstChar(l, '=') == |key| + 1 && Trim(l[|key| + 2..]) == Trim(value)
  {
    var l := CiLine(key, value);
    assert l == (key + " ") + ['='] + (" " + value) && l[|key| + 1] == '=';
    FirstCharAfter(key + " ", '=', " " + value);
    assert l[..|key| + 1] == "" + key + " " && l[|key| + 2..] == " " + value;
    TrimBetween("", key, " ");
    TrimStartAfter(" ", value);
  }

  lemma CarriedIsHeldCi(lines: seq<string>, key: string, value: string)
    requires IsCiKey(key) && Carries(lines, IsCiLine(key), CiLine(key, value))
    ensures CiHolds(lines, key, value)
  {
    hide Trim, IsCiLine, IsCiKey, IsCiSpelled, IsCiActive;
    var line := CiLine(key, value);
    NewLineActive(key, value);
    forall i | 0 <= i < |lines| && IsCiActive(lines[i], key) ensures lines[i] == line {
      ActiveIsForKey(lines[i], key);
    }
    FindCarried(lines, l => IsCiActive(l, key), line);
    TrimmedExactly(value);
    forall i, before, mark, mid, rest |
      0 <= i < |lines| && IsCiSpelled(lines[i], key, before, mark, mid, rest)
      ensures lines[i] == line
    {
      SpelledIsForKey(lines[i], key, before, mark, mid, rest);
    }
  }

  /**
   After a chain of edits for distinct keys a reader that trims finds each value, trimmed,
   behind its key, and no line for the key is left but the new one.
   */
  lemma CiReadBack(content: string, settings: seq<Setting>, k: nat)
    requires CiSettings(settings) && k < |settings|
    ensures CiHolds(Split(CiChain(content, settings)), settings[k].key, settings[k].value)
  {
    hide Split, CiChain, Carries, CiHolds;
    CiChainCarries(content, settings, k);
    CarriedIsHeldCi(Split(CiChain(content, settings)), settings[k].key, settings[k].value);
  }

  lemma CiReadAfterEdit(content: string, key: string, value: string)
    requires IsCiKey(key) && IsValue(value)
    ensures CiHolds(Split(Edited(content, IsCiLine(key), CiLine(key, value))), key, value)
  {
    hide *;
    CiProper(key, value);
    EditCarries(content, IsCiLine(key), CiLine(key, value));
    CarriedIsHeldCi(Split(Edited(content, IsCiLine(key), CiLine(key, value))), key, value);
  }
}
