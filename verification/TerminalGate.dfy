/**
 The command gate of the web terminal (panel/agent/src/routes/terminal.rs, the input
 branch of `handle_terminal`).

 The gate keeps a shadow copy of the line the shell is editing, checks a line when
 Enter is typed, and forwards a message to the PTY whole or not at all. The partner
 of the gate is `Shell`, an abstract line discipline that reads what was written to
 the PTY and knows nothing of the gate.
 */
module TerminalGate {
  import opened Text
  import opened CommandFilter

  const KILL_LINE: char := '\U{15}'
  const INTERRUPT: char := '\U{03}'
  const DEL: char := '\U{7F}'
  const BACKSPACE: char := '\U{08}'
  /** What the gate sends to the shell instead of a blocked message: Ctrl+U, Ctrl+C. */
  const CANCEL: string := [KILL_LINE, INTERRUPT]

  // ---------------------------------------------------------------- the line discipline

  /** The line being edited and the lines completed so far. */
  datatype Shell = Shell(pending: string, lines: seq<string>)

  const FRESH_SHELL := Shell("", [])

  predicate IsEnter(c: char) {
    c == '\r' || c == '\n'
  }

  predicate IsErase(c: char) {
    c == DEL || c == BACKSPACE
  }

  predicate IsCancel(c: char) {
    c == KILL_LINE || c == INTERRUPT
  }

  function Shorter(s: string): string {
    if s == "" then "" else s[..|s| - 1]
  }

  function ShellStep(sh: Shell, c: char): Shell {
    if IsEnter(c) then Shell("", sh.lines + [sh.pending])
    else if IsErase(c) then sh.(pending := Shorter(sh.pending))
    else if IsCancel(c) then sh.(pending := "")
    else sh.(pending := sh.pending + [c])
  }

  function Feed(sh: Shell, s: string): Shell {
    if s == "" then sh else ShellStep(Feed(sh, s[..|s| - 1]), s[|s| - 1])
  }

  /** Input the line discipline is a faithful model of: text, Enter, and the erase keys. */
  predicate Plain(s: string) {
    forall i | 0 <= i < |s| :: !IsControl(s[i]) || IsEnter(s[i]) || IsErase(s[i])
  }

  /** Plain input in which the user may also press Ctrl+U and Ctrl+C. */
  predicate PlainOrCancel(s: string) {
    forall i | 0 <= i < |s| :: !IsControl(s[i]) || IsEnter(s[i]) || IsErase(s[i]) || IsCancel(s[i])
  }

  lemma {:induction false} FeedConcat(sh: Shell, a: string, b: string)
    ensures Feed(sh, a + b) == Feed(Feed(sh, a), b)
  {
    if b == "" {
      assert a + b == a;
    } else {
      var n := |b| - 1;
      FeedConcat(sh, a, b[..n]);
      assert (a + b)[..|a + b| - 1] == a + b[..n];
    }
  }

  lemma {:induction false} FeedLinesGrow(sh: Shell, s: string)
    ensures sh.lines <= Feed(sh, s).lines
  {
    if s != "" {
      FeedLinesGrow(sh, s[..|s| - 1]);
    }
  }

  /** Lines completed earlier do not influence how later input is edited. */
  lemma {:induction false} FeedForgetsHistory(pending: string, lines: seq<string>, s: string)
    ensures Feed(Shell(pending, lines), s)
         == Shell(Feed(Shell(pending, []), s).pending, lines + Feed(Shell(pending, []), s).lines)
  {
    if s != "" {
      FeedForgetsHistory(pending, lines, s[..|s| - 1]);
    }
  }

  lemma FeedCancel(sh: Shell)
    ensures Feed(sh, CANCEL) == Shell("", sh.lines)
  {
    var mid := Feed(sh, [KILL_LINE]);
    assert [KILL_LINE][..0] == "";
    assert mid == ShellStep(Feed(sh, ""), KILL_LINE);
    assert CANCEL[..1] == [KILL_LINE];
  }

  // ---------------------------------------------------------------- what the gate decides

  /** The characters that reach the shadow buffer; every other control character is skipped. */
  function Typed(s: string): (t: string)
    ensures Plain(t)
    ensures Plain(s) ==> t == s
  {
    if s == "" then ""
    else
      var c := s[|s| - 1];
      var rest := Typed(s[..|s| - 1]);
      if !IsControl(c) || IsEnter(c) || IsErase(c) then rest + [c] else rest
  }

  /** The predicate the gate asks about a trimmed, non-empty line. */
  type Filter = string -> bool

  function TerminalFilter(lower: string -> string): Filter {
    cmd => IsSafeTerminalCommand(lower, cmd)
  }

  /** A completed line the filter turns down. */
  predicate Rejected(safe: Filter, line: string) {
    Trim(line) != "" && !safe(Trim(line))
  }

  predicate AnyRejected(safe: Filter, lines: seq<string>) {
    exists i | 0 <= i < |lines| :: Rejected(safe, lines[i])
  }

  /** A text frame from the browser, after the attempt to read it as JSON. */
  datatype Message =
    | Input(data: string)   // {"type":"input","data":...}
    | OtherJson             // resize, or JSON that is no input message
    | Raw(text: string)     // not JSON

  function Payload(m: Message): string {
    match m
    case Input(data) => data
    case OtherJson => ""
    case Raw(text) => text
  }

  /** The shadow buffer and everything written to the PTY so far. */
  datatype Gate = Gate(buffer: string, pty: string)

  function Scan(buffer: string, payload: string): Shell {
    Feed(Shell(buffer, []), Typed(payload))
  }

  predicate Blocks(safe: Filter, site: bool, g: Gate, m: Message) {
    site && AnyRejected(safe, Scan(g.buffer, Payload(m)).lines)
  }

  function Handle(safe: Filter, site: bool, g: Gate, m: Message): Gate {
    if Blocks(safe, site, g, m) then Gate("", g.pty + CANCEL)
    else if m.Raw? && !site then Gate(g.buffer, g.pty + m.text)
    else Gate(Scan(g.buffer, Payload(m)).pending, g.pty + Payload(m))
  }

  function Run(safe: Filter, site: bool, ms: seq<Message>): Gate {
    if ms == [] then Gate("", "")
    else Handle(safe, site, Run(safe, site, ms[..|ms| - 1]), ms[|ms| - 1])
  }

  lemma AnyRejectedConcat(safe: Filter, a: seq<string>, b: seq<string>)
    ensures AnyRejected(safe, a + b) <==> AnyRejected(safe, a) || AnyRejected(safe, b)
  {
    if AnyRejected(safe, a) {
      var i :| 0 <= i < |a| && Rejected(safe, a[i]);
      assert (a + b)[i] == a[i];
    }
    if AnyRejected(safe, b) {
      var i :| 0 <= i < |b| && Rejected(safe, b[i]);
      assert (a + b)[|a| + i] == b[i];
    }
    if AnyRejected(safe, a + b) {
      var i :| 0 <= i < |a + b| && Rejected(safe, (a + b)[i]);
      assert if i < |a| then (a + b)[i] == a[i] else (a + b)[i] == b[i - |a|];
    }
  }

  /** One more character of the payload. */
  lemma ScanSnoc(buffer: string, payload: string, i: nat)
    requires i < |payload|
    ensures Scan(buffer, payload[..i + 1])
         == if !IsControl(payload[i]) || IsEnter(payload[i]) || IsErase(payload[i])
            then ShellStep(Scan(buffer, payload[..i]), payload[i]) else Scan(buffer, payload[..i])
  {
    var head := payload[..i + 1];
    assert head[..i] == payload[..i];
    var t := Typed(payload[..i]);
    assert (t + [payload[i]])[..|t|] == t;
  }

  lemma AnyRejectedSnoc(safe: Filter, lines: seq<string>, line: string)
    ensures AnyRejected(safe, lines + [line]) <==> AnyRejected(safe, lines) || Rejected(safe, line)
  {
    AnyRejectedConcat(safe, lines, [line]);
    assert [line][0] == line;
  }

  lemma {:induction false} TypedConcat(a: string, b: string)
    ensures Typed(a + b) == Typed(a) + Typed(b)
  {
    if b == "" {
      assert a + b == a;
    } else {
      TypedConcat(a, b[..|b| - 1]);
      assert (a + b)[..|a + b| - 1] == a + b[..|b| - 1];
    }
  }

  lemma ScanConcat(buffer: string, a: string, b: string)
    ensures Scan(buffer, a + b) == Feed(Scan(buffer, a), Typed(b))
  {
    TypedConcat(a, b);
    FeedConcat(Shell(buffer, []), Typed(a), Typed(b));
  }

  /** A rejected line found in a first part of a payload is found in the whole payload. */
  lemma RejectionStays(safe: Filter, buffer: string, payload: string, i: nat)
    requires i <= |payload| && AnyRejected(safe, Scan(buffer, payload[..i]).lines)
    ensures AnyRejected(safe, Scan(buffer, payload).lines)
  {
    hide Scan, AnyRejected;
    RejectionStaysInConcat(safe, buffer, payload[..i], payload[i..]);
    assert payload == payload[..i] + payload[i..];
  }

  lemma RejectionStaysInConcat(safe: Filter, buffer: string, a: string, b: string)
    requires AnyRejected(safe, Scan(buffer, a).lines)
    ensures AnyRejected(safe, Scan(buffer, a + b).lines)
  {
    ScanConcat(buffer, a, b);
    FeedLinesGrow(Scan(buffer, a), Typed(b));
    var before, after := Scan(buffer, a).lines, Scan(buffer, a + b).lines;
    assert forall k | 0 <= k < |before| :: after[k] == before[k];
  }

  lemma NothingScanned(buffer: string, payload: string, safe: Filter)
    ensures Scan(buffer, payload[..0]) == Shell(buffer, []) && !AnyRejected(safe, [])
  {
  }

  /** One session: the state `handle_terminal` keeps across messages. */
  class TerminalSession {
    const site: bool
    const safe: Filter
    var cmdBuffer: string
    var pty: string

    constructor (site: bool, safe: Filter)
      ensures this.site == site && this.safe == safe
      ensures View() == Run(safe, site, [])
    {
      this.site := site;
      this.safe := safe;
      cmdBuffer := "";
      pty := "";
    }

    ghost function View(): Gate
      reads this
    {
      Gate(cmdBuffer, pty)
    }

    /** The character loop that both input branches run over a payload. */
    method ScanLoop(payload: string) returns (blocked: bool)
      modifies this`cmdBuffer
      ensures blocked == Blocks(safe, site, old(View()), Input(payload))
      ensures blocked ==> cmdBuffer == ""
      ensures !blocked ==> cmdBuffer == Scan(old(cmdBuffer), payload).pending
    {
      hide Scan, AnyRejected, Trim;
      ghost var start := cmdBuffer;
      blocked := false;
      NothingScanned(start, payload, safe);
      var i := 0;
      while i < |payload|
        invariant 0 <= i <= |payload|
        invariant cmdBuffer == Scan(start, payload[..i]).pending
        invariant site ==> !AnyRejected(safe, Scan(start, payload[..i]).lines)
      {
        var ch := payload[i];
        ScanSnoc(start, payload, i);
        if ch == '\r' || ch == '\n' {
          var trimmed := Trim(cmdBuffer);
          AnyRejectedSnoc(safe, Scan(start, payload[..i]).lines, cmdBuffer);
          if trimmed != "" && site && !safe(trimmed) {
            RejectionStays(safe, start, payload, i + 1);
            cmdBuffer := "";
            blocked := true;
            return;
          }
          cmdBuffer := "";
        } else if ch == DEL || ch == BACKSPACE {
          cmdBuffer := Shorter(cmdBuffer);
        } else if !IsControl(ch) {
          cmdBuffer := cmdBuffer + [ch];
        }
        i := i + 1;
      }
      assert payload[..i] == payload;
    }

    /** One text frame from the WebSocket. */
    method Receive(m: Message)
      modifies this
      ensures View() == Handle(safe, site, old(View()), m)
    {
      match m {
        case Input(data) =>
          var blocked := ScanLoop(data);
          pty := pty + if blocked then CANCEL else data;
        case OtherJson =>
          assert pty + "" == pty;
        case Raw(text) =>
          var blocked := false;
          if site {
            blocked := ScanLoop(text);
          }
          pty := pty + if blocked then CANCEL else text;
      }
    }

    /** A whole session: messages in the order they arrive. */
    method Serve(ms: seq<Message>)
      requires View() == Run(safe, site, [])
      modifies this
      ensures View() == Run(safe, site, ms)
    {
      for i := 0 to |ms|
        invariant View() == Run(safe, site, ms[..i])
      {
        assert ms[..i + 1][..i] == ms[..i];
        Receive(ms[i]);
      }
      assert ms[..|ms|] == ms;
    }
  }

  // ---------------------------------------------------------------- the gate against the shell

  ghost predicate AllPlain(ms: seq<Message>) {
    forall i | 0 <= i < |ms| :: Plain(Payload(ms[i]))
  }

  /** The shadow buffer is the shell's pending line, and nothing rejected was ever completed. */
  ghost predicate InStep(safe: Filter, g: Gate) {
    var sh := Feed(FRESH_SHELL, g.pty);
    g.buffer == sh.pending && !AnyRejected(safe, sh.lines)
  }

  /** What the shell would know after one more payload, told through the shadow buffer. */
  lemma ForwardedPayload(g: Gate, payload: string)
    requires Plain(payload)
    requires g.buffer == Feed(FRESH_SHELL, g.pty).pending
    ensures Feed(FRESH_SHELL, g.pty + payload)
         == Shell(Scan(g.buffer, payload).pending, Feed(FRESH_SHELL, g.pty).lines + Scan(g.buffer, payload).lines)
  {
    FeedConcat(FRESH_SHELL, g.pty, payload);
    FeedForgetsHistory(g.buffer, Feed(FRESH_SHELL, g.pty).lines, payload);
  }

  lemma HandleStaysInStep(safe: Filter, g: Gate, m: Message)
    requires InStep(safe, g) && Plain(Payload(m))
    ensures InStep(safe, Handle(safe, true, g, m))
  {
    var sh := Feed(FRESH_SHELL, g.pty);
    if Blocks(safe, true, g, m) {
      FeedConcat(FRESH_SHELL, g.pty, CANCEL);
      FeedCancel(sh);
    } else {
      ForwardedPayload(g, Payload(m));
      AnyRejectedConcat(safe, sh.lines, Scan(g.buffer, Payload(m)).lines);
    }
  }

  /**
   Safety over every session of a site terminal: after each message the shadow buffer is
   the shell's pending line, and every line the shell ever completed is, once trimmed,
   empty or accepted by the filter.
   */
  lemma {:induction false} SiteSessionSafe(safe: Filter, ms: seq<Message>)
    requires AllPlain(ms)
    ensures Run(safe, true, ms).buffer == Feed(FRESH_SHELL, Run(safe, true, ms).pty).pending
    ensures forall i | 0 <= i < |Feed(FRESH_SHELL, Run(safe, true, ms).pty).lines| ::
              var line := Trim(Feed(FRESH_SHELL, Run(safe, true, ms).pty).lines[i]);
              line == "" || safe(line)
    ensures InStep(safe, Run(safe, true, ms))
  {
    if ms != [] {
      var init := ms[..|ms| - 1];
      SiteSessionSafe(safe, init);
      assert Plain(Payload(ms[|ms| - 1]));
      HandleStaysInStep(safe, Run(safe, true, init), ms[|ms| - 1]);
    }
    forall i | 0 <= i < |Feed(FRESH_SHELL, Run(safe, true, ms).pty).lines|
      ensures !Rejected(safe, Feed(FRESH_SHELL, Run(safe, true, ms).pty).lines[i])
    {
    }
  }

  /**
   The gate is exact: in a reachable state it drops a message if and only if forwarding
   that message would have made the shell complete a rejected line.
   */
  lemma GateIsExact(safe: Filter, ms: seq<Message>, m: Message)
    requires AllPlain(ms) && Plain(Payload(m))
    ensures var g := Run(safe, true, ms);
            Blocks(safe, true, g, m) <==> AnyRejected(safe, Feed(FRESH_SHELL, g.pty + Payload(m)).lines)
  {
    var g := Run(safe, true, ms);
    SiteSessionSafe(safe, ms);
    ForwardedPayload(g, Payload(m));
    AnyRejectedConcat(safe, Feed(FRESH_SHELL, g.pty).lines, Scan(g.buffer, Payload(m)).lines);
  }

  function Concat(ms: seq<Message>): string {
    if ms == [] then "" else Concat(ms[..|ms| - 1]) + Payload(ms[|ms| - 1])
  }

  /** A session whose input would never complete a rejected line reaches the shell unaltered. */
  lemma {:induction false} HarmlessSessionUnaltered(safe: Filter, ms: seq<Message>)
    requires AllPlain(ms)
    requires !AnyRejected(safe, Feed(FRESH_SHELL, Concat(ms)).lines)
    ensures Run(safe, true, ms).pty == Concat(ms)
  {
    if ms != [] {
      var init, last := ms[..|ms| - 1], ms[|ms| - 1];
      assert Plain(Payload(last));
      HarmlessPrefix(safe, Concat(init), Payload(last));
      HarmlessSessionUnaltered(safe, init);
      GateIsExact(safe, init, last);
    }
  }

  lemma HarmlessPrefix(safe: Filter, a: string, b: string)
    requires !AnyRejected(safe, Feed(FRESH_SHELL, a + b).lines)
    ensures !AnyRejected(safe, Feed(FRESH_SHELL, a).lines)
  {
    FeedConcat(FRESH_SHELL, a, b);
    FeedLinesGrow(Feed(FRESH_SHELL, a), b);
    var before, after := Feed(FRESH_SHELL, a).lines, Feed(FRESH_SHELL, a + b).lines;
    assert forall k | 0 <= k < |before| :: after[k] == before[k];
  }

  /** A server terminal (no domain) is never filtered: the shell gets every payload. */
  lemma {:induction false} ServerSessionUnaltered(safe: Filter, ms: seq<Message>)
    ensures Run(safe, false, ms).pty == Concat(ms)
  {
    if ms != [] {
      ServerSessionUnaltered(safe, ms[..|ms| - 1]);
    }
  }

  // ---------------------------------------------------------------- Ctrl+U and Ctrl+C typed by the user

  /** Through the first `k` characters of a payload the buffer is the pending line of a shell that began alike. */
  ghost predicate Follows(buffer: string, p: string, k: nat)
    requires k <= |p|
  {
    forall i | 0 <= i <= k :: Scan(buffer, p[..i]).pending == Feed(Shell(buffer, []), p[..i]).pending
  }

  /** Among the first `k` characters Ctrl+U and Ctrl+C meet an empty line only. */
  ghost predicate CancelsOnEmpty(buffer: string, p: string, k: nat)
    requires k <= |p|
  {
    forall i | 0 <= i < k && IsCancel(p[i]) :: Feed(Shell(buffer, []), p[..i]).pending == ""
  }

  lemma FeedSnoc(sh: Shell, p: string, i: nat)
    requires i < |p|
    ensures Feed(sh, p[..i + 1]) == ShellStep(Feed(sh, p[..i]), p[i])
  {
    assert p[..i + 1][..i] == p[..i];
  }

  /**
   The buffer ignores Ctrl+U and Ctrl+C, so it follows the shell exactly as long as these
   keys find nothing to cancel.
   */
  lemma {:induction false} FollowsExactly(buffer: string, p: string, k: nat)
    requires k <= |p| && PlainOrCancel(p)
    ensures Follows(buffer, p, k) <==> CancelsOnEmpty(buffer, p, k)
  {
    hide Scan, Feed;
    if k == 0 {
      FollowsAtFirst(buffer, p);
    } else {
      FollowsExactly(buffer, p, k - 1);
      ScanSnoc(buffer, p, k - 1);
      FeedSnoc(Shell(buffer, []), p, k - 1);
    }
  }

  lemma FollowsAtFirst(buffer: string, p: string)
    ensures Follows(buffer, p, 0)
  {
    assert p[..0] == "";
  }

  /** One key that does find something: the concrete payload. */
  lemma CancelKeyBreaksEquality(safe: Filter, x: char)
    requires !IsControl(x)
    ensures var g := Handle(safe, true, Gate("", ""), Input([x, KILL_LINE]));
            g.buffer == [x] && Feed(FRESH_SHELL, g.pty).pending == ""
  {
    hide Typed, Feed;
    var keys := [x, KILL_LINE];
    TypedKeys(x);
    OneChar(FRESH_SHELL, x);
    FeedSnoc(FRESH_SHELL, keys, 1);
    assert keys[..1] == [x] && keys[..2] == keys && "" + keys == keys && "" + [x] == [x];
  }

  lemma TypedKeys(x: char)
    requires !IsControl(x)
    ensures Typed([x, KILL_LINE]) == [x]
  {
    assert [x, KILL_LINE][..1] == [x] && [x][..0] == "";
    assert Typed([x]) == [x];
  }

  lemma OneChar(sh: Shell, x: char)
    requires !IsControl(x)
    ensures Feed(sh, [x]) == sh.(pending := sh.pending + [x])
  {
    assert [x][..0] == "";
  }

  /** The messages of a session that were not blocked, and what the shell had read before each. */
  ghost predicate FollowsThroughout(safe: Filter, ms: seq<Message>) {
    forall n | 0 <= n < |ms| && !Blocks(safe, true, Run(safe, true, ms[..n]), ms[n]) ::
      FollowsMessage(Run(safe, true, ms[..n]), Payload(ms[n]))
  }

  /** While a message is read, buffer and pending line agree after every character. */
  ghost predicate FollowsMessage(g: Gate, p: string) {
    forall i | 0 <= i <= |p| :: Scan(g.buffer, p[..i]).pending == Feed(FRESH_SHELL, g.pty + p[..i]).pending
  }

  ghost predicate CancelsNothing(safe: Filter, ms: seq<Message>) {
    forall n | 0 <= n < |ms| && !Blocks(safe, true, Run(safe, true, ms[..n]), ms[n]) ::
      MessageCancelsNothing(Run(safe, true, ms[..n]), Payload(ms[n]))
  }

  ghost predicate MessageCancelsNothing(g: Gate, p: string) {
    forall i | 0 <= i < |p| && IsCancel(p[i]) :: Feed(FRESH_SHELL, g.pty + p[..i]).pending == ""
  }

  lemma PendingAfter(g: Gate, p: string)
    requires g.buffer == Feed(FRESH_SHELL, g.pty).pending
    ensures Feed(FRESH_SHELL, g.pty + p).pending == Feed(Shell(g.buffer, []), p).pending
  {
    FeedConcat(FRESH_SHELL, g.pty, p);
    FeedForgetsHistory(g.buffer, Feed(FRESH_SHELL, g.pty).lines, p);
  }

  lemma MessageExactly(g: Gate, p: string)
    requires g.buffer == Feed(FRESH_SHELL, g.pty).pending && PlainOrCancel(p)
    ensures FollowsMessage(g, p) <==> MessageCancelsNothing(g, p)
  {
    hide Scan, Feed;
    FollowsExactly(g.buffer, p, |p|);
    forall i | 0 <= i <= |p|
      ensures Feed(FRESH_SHELL, g.pty + p[..i]).pending == Feed(Shell(g.buffer, []), p[..i]).pending
    {
      PendingAfter(g, p[..i]);
    }
  }

  lemma InStepAfter(safe: Filter, g: Gate, m: Message)
    requires g.buffer == Feed(FRESH_SHELL, g.pty).pending
    requires Blocks(safe, true, g, m) || FollowsMessage(g, Payload(m))
    ensures var next := Handle(safe, true, g, m); next.buffer == Feed(FRESH_SHELL, next.pty).pending
  {
    if Blocks(safe, true, g, m) {
      FeedConcat(FRESH_SHELL, g.pty, CANCEL);
      FeedCancel(Feed(FRESH_SHELL, g.pty));
    } else {
      var p := Payload(m);
      assert p[..|p|] == p;
    }
  }

  lemma InitOf(ms: seq<Message>, safe: Filter)
    requires ms != []
    ensures var init := ms[..|ms| - 1];
            && (FollowsThroughout(safe, ms) ==> FollowsThroughout(safe, init))
            && (CancelsNothing(safe, ms) ==> CancelsNothing(safe, init))
  {
    var init := ms[..|ms| - 1];
    assert forall n | 0 <= n < |init| :: init[..n] == ms[..n] && init[n] == ms[n];
  }

  /** As long as the buffer has followed the shell, it is the pending line after every message. */
  lemma {:induction false} FollowedSoFar(safe: Filter, ms: seq<Message>)
    requires FollowsThroughout(safe, ms)
    ensures Run(safe, true, ms).buffer == Feed(FRESH_SHELL, Run(safe, true, ms).pty).pending
  {
    hide Feed, Handle, Blocks, FollowsMessage;
    if ms == [] {
      NothingRead(safe);
    } else {
      var init := ms[..|ms| - 1];
      InitOf(ms, safe);
      FollowedSoFar(safe, init);
      InStepAfter(safe, Run(safe, true, init), ms[|ms| - 1]);
    }
  }

  lemma NothingRead(safe: Filter)
    ensures Run(safe, true, []).buffer == Feed(FRESH_SHELL, Run(safe, true, []).pty).pending
  {
  }

  /**
   Over every session with Ctrl+U and Ctrl+C typed anywhere: buffer and pending line agree
   after every character of every message that was let through if and only if these keys,
   in such messages, meet an empty line only.
   */
  lemma {:induction false} SessionFollowsExactly(safe: Filter, ms: seq<Message>)
    requires AllPlainOrCancel(ms)
    ensures FollowsThroughout(safe, ms) <==> CancelsNothing(safe, ms)
  {
    hide Feed, Handle, Blocks, FollowsMessage, MessageCancelsNothing, Run;
    if ms != [] {
      var init, last := ms[..|ms| - 1], ms[|ms| - 1];
      InitOf(ms, safe);
      assert AllPlainOrCancel(init) && PlainOrCancel(Payload(last));
      SessionFollowsExactly(safe, init);
      if FollowsThroughout(safe, init) {
        FollowedSoFar(safe, init);
        MessageExactly(Run(safe, true, init), Payload(last));
        OneMoreMessage(safe, ms);
      }
    }
  }

  lemma OneMoreMessage(safe: Filter, ms: seq<Message>)
    requires ms != []
    ensures var init, last := ms[..|ms| - 1], ms[|ms| - 1];
            var g := Run(safe, true, init);
            && (FollowsThroughout(safe, ms) <==>
                  FollowsThroughout(safe, init) && (!Blocks(safe, true, g, last) ==> FollowsMessage(g, Payload(last))))
            && (CancelsNothing(safe, ms) <==>
                  CancelsNothing(safe, init)
                      && (!Blocks(safe, true, g, last) ==> MessageCancelsNothing(g, Payload(last))))
  {
    hide Feed, Handle, Blocks, FollowsMessage, MessageCancelsNothing, Run;
    var init := ms[..|ms| - 1];
    assert forall n | 0 <= n < |init| :: init[..n] == ms[..n] && init[n] == ms[n];
    forall n | 0 <= n < |ms| ensures n < |init| || ms[..n] == init {
    }
  }

  /** Every line of the shell is the tail of a line the gate has looked at. */
  ghost predicate TailOf(shell: Shell, shadow: Shell) {
    && IsSuffix(shell.pending, shadow.pending)
    && |shell.lines| == |shadow.lines|
    && forall i | 0 <= i < |shell.lines| :: IsSuffix(shell.lines[i], shadow.lines[i])
  }

  lemma {:induction false} FeedKeepsTail(shell: Shell, shadow: Shell, s: string)
    requires TailOf(shell, shadow) && PlainOrCancel(s)
    ensures TailOf(Feed(shell, s), Feed(shadow, Typed(s)))
  {
    hide TailOf, ShellStep;
    if s != "" {
      var init, c := s[..|s| - 1], s[|s| - 1];
      FeedKeepsTail(shell, shadow, init);
      if IsCancel(c) {
        assert Typed(s) == Typed(init);
        CancelKeepsTail(Feed(shell, init), Feed(shadow, Typed(init)), c);
      } else {
        assert Typed(s) == Typed(init) + [c];
        assert (Typed(init) + [c])[..|Typed(init)|] == Typed(init);
        StepKeepsTail(Feed(shell, init), Feed(shadow, Typed(init)), c);
      }
    }
  }

  lemma CancelKeepsTail(a: Shell, b: Shell, c: char)
    requires TailOf(a, b) && IsCancel(c)
    ensures TailOf(ShellStep(a, c), b)
  {
    assert b.pending[|b.pending|..] == "";
  }

  lemma StepKeepsTail(a: Shell, b: Shell, c: char)
    requires TailOf(a, b) && !IsCancel(c)
    ensures TailOf(ShellStep(a, c), ShellStep(b, c))
  {
    if IsErase(c) {
      assert IsSuffix(Shorter(a.pending), Shorter(b.pending));
    } else if !IsEnter(c) {
      assert IsSuffix(a.pending + [c], b.pending + [c]);
    }
  }

  ghost predicate AllPlainOrCancel(ms: seq<Message>) {
    forall i | 0 <= i < |ms| :: PlainOrCancel(Payload(ms[i]))
  }

  /** The shell against the gate when the user may press Ctrl+U and Ctrl+C. */
  ghost predicate Covered(safe: Filter, g: Gate) {
    var sh := Feed(FRESH_SHELL, g.pty);
    && IsSuffix(sh.pending, g.buffer)
    && forall i | 0 <= i < |sh.lines| :: CoveredLine(safe, sh.lines[i])
  }

  /** A line that is the tail of some line that passed the check at Enter. */
  ghost predicate CoveredLine(safe: Filter, line: string) {
    exists checked :: IsSuffix(line, checked) && !Rejected(safe, checked)
  }

  lemma HandleStaysCovered(safe: Filter, g: Gate, m: Message)
    requires Covered(safe, g) && PlainOrCancel(Payload(m))
    ensures Covered(safe, Handle(safe, true, g, m))
  {
    var sh := Feed(FRESH_SHELL, g.pty);
    if Blocks(safe, true, g, m) {
      FeedConcat(FRESH_SHELL, g.pty, CANCEL);
      FeedCancel(sh);
    } else {
      var p := Payload(m);
      var shell, shadow := Feed(Shell(sh.pending, []), p), Scan(g.buffer, p);
      FeedKeepsTail(Shell(sh.pending, []), Shell(g.buffer, []), p);
      FeedConcat(FRESH_SHELL, g.pty, p);
      FeedForgetsHistory(sh.pending, sh.lines, p);
      forall i | 0 <= i < |shell.lines| ensures CoveredLine(safe, shell.lines[i]) {
        assert IsSuffix(shell.lines[i], shadow.lines[i]) && !Rejected(safe, shadow.lines[i]);
      }
      var lines := Feed(FRESH_SHELL, g.pty + p).lines;
      assert lines == sh.lines + shell.lines;
      forall i | 0 <= i < |lines| ensures CoveredLine(safe, lines[i]) {
        if i >= |sh.lines| {
          assert lines[i] == shell.lines[i - |sh.lines|];
        }
      }
    }
  }

  /**
   With Ctrl+U and Ctrl+C allowed, the shell's pending line is a suffix of the shadow
   buffer after every message, and every completed line is, once trimmed, still empty or
   accepted: the check looked at a longer line and acceptance passes to its pieces.
   */
  lemma {:induction false} SiteSessionSafeWithCancelKeys(lower: string -> string, ms: seq<Message>)
    requires KeepsPatterns(lower) && AllPlainOrCancel(ms)
    ensures var g := Run(TerminalFilter(lower), true, ms);
            var sh := Feed(FRESH_SHELL, g.pty);
            IsSuffix(sh.pending, g.buffer) && !AnyRejected(TerminalFilter(lower), sh.lines)
  {
    var safe := TerminalFilter(lower);
    SessionStaysCovered(safe, ms);
    var lines := Feed(FRESH_SHELL, Run(safe, true, ms).pty).lines;
    forall i | 0 <= i < |lines| ensures !Rejected(safe, lines[i]) {
      assert CoveredLine(safe, lines[i]);
      var checked :| IsSuffix(lines[i], checked) && !Rejected(safe, checked);
      TailOfAcceptedAccepted(lower, lines[i], checked);
    }
  }

  lemma {:induction false} SessionStaysCovered(safe: Filter, ms: seq<Message>)
    requires AllPlainOrCancel(ms)
    ensures Covered(safe, Run(safe, true, ms))
  {
    if ms != [] {
      var init := ms[..|ms| - 1];
      SessionStaysCovered(safe, init);
      assert PlainOrCancel(Payload(ms[|ms| - 1]));
      HandleStaysCovered(safe, Run(safe, true, init), ms[|ms| - 1]);
    }
  }

  lemma TailOfAcceptedAccepted(lower: string -> string, tail: string, checked: string)
    requires KeepsPatterns(lower) && IsSuffix(tail, checked) && !Rejected(TerminalFilter(lower), checked)
    ensures !Rejected(TerminalFilter(lower), tail)
  {
    if Trim(tail) != "" {
      TrimOfSuffix(checked, tail);
      SuffixOccurs(Trim(tail), Trim(checked));
      TrimTwice(checked);
      PieceOfSafeIsSafe(lower, Trim(checked), Trim(tail));
    }
  }

  /**
   What the site terminal keeps out: however a completed line is padded with white space,
   none of the filter's words stands in the lower-cased form of what is between.
   */
  lemma NoForbiddenWord(lower: string -> string, ms: seq<Message>,
                        i: nat, before: string, typed: string, after: string, word: string)
    requires AllPlain(ms) || (KeepsPatterns(lower) && AllPlainOrCancel(ms))
    requires var lines := Feed(FRESH_SHELL, Run(TerminalFilter(lower), true, ms).pty).lines;
             i < |lines| && lines[i] == before + typed + after
    requires AllWhite(before) && AllWhite(after)
    requires typed != "" && !IsWhitespace(typed[0]) && !IsWhitespace(typed[|typed| - 1])
    requires word in BLOCKED_PATTERNS || word in TERMINAL_BLOCKED_PATTERNS
    ensures !Embeds(lower(typed), word)
  {
    hide Feed, Run, Trim, Embeds, ContainsAny, BLOCKED_PATTERNS, TERMINAL_BLOCKED_PATTERNS;
    var safe := TerminalFilter(lower);
    var lines := Feed(FRESH_SHELL, Run(safe, true, ms).pty).lines;
    if AllPlain(ms) {
      SiteSessionSafe(safe, ms);
    } else {
      SiteSessionSafeWithCancelKeys(lower, ms);
      assert !Rejected(safe, lines[i]);
    }
    TrimBetween(before, typed, after);
    TrimTwice(lines[i]);
    NoneEmbedded(lower(typed), BLOCKED_PATTERNS);
    NoneEmbedded(lower(typed), TERMINAL_BLOCKED_PATTERNS);
  }

  // ---------------------------------------------------------------- one line typed and entered

  lemma {:induction false} TextTyped(sh: Shell, text: string)
    requires forall i | 0 <= i < |text| :: !IsControl(text[i])
    ensures Feed(sh, text) == sh.(pending := sh.pending + text) && Typed(text) == text
  {
    if text != "" {
      var n := |text| - 1;
      TextTyped(sh, text[..n]);
      assert sh.pending + text == sh.pending + text[..n] + [text[n]];
    } else {
      assert sh.pending + text == sh.pending;
    }
  }

  /** Return and line feed end the line, backspace and delete take one character back. */
  lemma KeysTyped(sh: Shell, text: string, key: char)
    requires forall i | 0 <= i < |text| :: !IsControl(text[i])
    requires key in "\r\n\U{08}\U{7F}"
    ensures Typed(text + [key]) == text + [key]
    ensures var line := sh.pending + text;
            Feed(sh, text + [key]) ==
            if key in "\r\n" then Shell("", sh.lines + [line])
            else Shell(if line == "" then "" else line[..|line| - 1], sh.lines)
  {
    TextTyped(sh, text);
    assert (text + [key])[..|text|] == text;
    assert key == '\r' || key == '\n' || key == '\U{08}' || key == '\U{7F}';
  }

  /**
   A forbidden word in a line that is entered: nothing of the message reaches the shell, which
   gets Ctrl+U and Ctrl+C instead.
   */
  lemma ForbiddenLineStopped(lower: string -> string, g: Gate, text: string, enter: char,
                             before: string, typed: string, after: string, word: string)
    requires (forall i | 0 <= i < |text| :: !IsControl(text[i])) && enter in "\r\n"
    requires g.buffer + text == before + typed + after && AllWhite(before) && AllWhite(after)
    requires typed != "" && !IsWhitespace(typed[0]) && !IsWhitespace(typed[|typed| - 1])
    requires word in BLOCKED_PATTERNS || word in TERMINAL_BLOCKED_PATTERNS
    requires Embeds(lower(typed), word)
    ensures Handle(TerminalFilter(lower), true, g, Input(text + [enter])) == Gate("", g.pty + "\U{15}\U{03}")
  {
    hide Feed, Typed, Trim, Embeds, ContainsAny, BLOCKED_PATTERNS, TERMINAL_BLOCKED_PATTERNS;
    var safe, line := TerminalFilter(lower), g.buffer + text;
    assert enter == '\r' || enter == '\n';
    KeysTyped(Shell(g.buffer, []), text, enter);
    TrimBetween(before, typed, after);
    TrimTwice(line);
    NoneEmbedded(lower(typed), BLOCKED_PATTERNS);
    NoneEmbedded(lower(typed), TERMINAL_BLOCKED_PATTERNS);
    assert Rejected(safe, line);
    assert Scan(g.buffer, text + [enter]).lines[0] == line;
  }
}
