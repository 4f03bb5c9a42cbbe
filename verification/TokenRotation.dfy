/**
 Rotation of the agent token against running authentication checks
 (`rotate_token` and `auth_middleware` in panel/agent/src/routes/mod.rs).

 Each lock section and each file operation is one step. One rotation runs at a time and
 every rotation draws a token never used before; checks are unlimited and interleave
 with everything.
 */
module TokenRotation {
  import opened Wrappers

  const GRACE_SECS: nat := 60
  const NANOS_PER_SEC: nat := 1_000_000_000

  type Token = string

  datatype Grace = NoGrace | Grace(token: Token, at: nat)

  /** Where `rotate_token` is: the new token is drawn first, then one step per stage. */
  datatype Rotation =
    | Idle
    | Drawn(issued: Token)
    | HasOld(issued: Token, displaced: Token)
    | GraceSet(issued: Token, displaced: Token)
    | OnDisk(issued: Token, displaced: Token)

  datatype Stage =
    | Begun                               // has not looked at the current token yet
    | Missed                              // the current token was another one
    | Done(accepted: bool, expired: bool) // expired: turned away at a grace token 60 s old or older

  /**
   A request under authentication. The last three fields are bookkeeping of the model:
   whether the request bore the current token when the check began, whether a rotation
   finished while it ran, and whether, after that and still while it ran, another one set
   its grace token.
   */
  datatype Check = Check(bearing: Token, stage: Stage, wanted: bool, committed: bool, overtaken: bool)

  /** `now` is the monotonic clock in nanoseconds; `used` and `commits` are bookkeeping of the model. */
  datatype Agent = Agent(
    token: Token, grace: Grace, disk: Token, now: nat,
    rotation: Rotation, checks: map<nat, Check>,
    used: set<Token>, commits: nat)

  function Start(token: Token, disk: Token): Agent {
    Agent(token, NoGrace, disk, 0, Idle, map[], {token}, 0)
  }

  datatype Event =
    | Tick(nanos: nat)
    | Draw(issued: Token)
    | ReadOld
    | SetGrace
    | WriteFails                 // temporary file or rename
    | WriteDisk                  // temporary file written and renamed over the token file
    | Commit                     // the in-memory token is replaced
    | BeginCheck(id: nat, bearing: Token)
    | CompareToken(id: nat)
    | CompareGrace(id: nat)

  predicate Enabled(s: Agent, e: Event) {
    match e
    case Tick(_) => true
    case Draw(issued) => s.rotation.Idle? && issued !in s.used
    case ReadOld => s.rotation.Drawn?
    case SetGrace => s.rotation.HasOld?
    case WriteFails => s.rotation.GraceSet?
    case WriteDisk => s.rotation.GraceSet?
    case Commit => s.rotation.OnDisk?
    case BeginCheck(id, _) => id !in s.checks
    case CompareToken(id) => id in s.checks && s.checks[id].stage.Begun?
    case CompareGrace(id) => id in s.checks && s.checks[id].stage.Missed?
  }

  /** `rotated_at.elapsed().as_secs() >= 60`: whole seconds since the grace token was set. */
  predicate Expired(g: Grace, now: nat) {
    g.Grace? && (if now < g.at then 0 else (now - g.at) / NANOS_PER_SEC) >= GRACE_SECS
  }

  /** The bookkeeping of a check ends with the check. */
  function SeesCommit(c: Check): Check {
    c.(committed := c.committed || !c.stage.Done?)
  }

  function SeesGrace(c: Check): Check {
    c.(overtaken := c.overtaken || (c.committed && !c.stage.Done?))
  }

  /** An event that is not possible in a state changes nothing. */
  function Apply(s: Agent, e: Event): Agent {
    if !Enabled(s, e) then s else
    match e
    case Tick(nanos) => s.(now := s.now + nanos)
    case Draw(issued) => s.(rotation := Drawn(issued), used := s.used + {issued})
    case ReadOld => s.(rotation := HasOld(s.rotation.issued, s.token))
    case SetGrace =>
      s.(grace := Grace(s.rotation.displaced, s.now), rotation := GraceSet(s.rotation.issued, s.rotation.displaced),
         checks := map id | id in s.checks :: SeesGrace(s.checks[id]))
    case WriteFails => s.(rotation := Idle)
    case WriteDisk =>
      s.(disk := s.rotation.issued, rotation := OnDisk(s.rotation.issued, s.rotation.displaced))
    case Commit =>
      s.(token := s.rotation.issued, rotation := Idle, commits := s.commits + 1,
         checks := map id | id in s.checks :: SeesCommit(s.checks[id]))
    case BeginCheck(id, bearing) =>
      s.(checks := s.checks[id := Check(bearing, Begun, bearing == s.token, false, false)])
    case CompareToken(id) =>
      var c := s.checks[id];
      var stage := if c.bearing == s.token then Done(true, false) else Missed;
      s.(checks := s.checks[id := c.(stage := stage)])
    case CompareGrace(id) =>
      var c := s.checks[id];
      var accepted := s.grace.Grace? && !Expired(s.grace, s.now) && c.bearing == s.grace.token;
      s.(checks := s.checks[id := c.(stage := Done(accepted, Expired(s.grace, s.now)))])
  }

  function After(s: Agent, es: seq<Event>): Agent {
    if es == [] then s else Apply(After(s, es[..|es| - 1]), es[|es| - 1])
  }

  // ---------------------------------------------------------------- the code, section by section

  const BEARER := "Bearer "

  /** The shared state behind the locks, and the token file. */
  class AppState {
    var token: Token
    var previousToken: Grace
    var disk: Token

    constructor (token: Token)
      ensures this.token == this.disk == token && previousToken == NoGrace
    {
      this.token, disk, previousToken := token, token, NoGrace;
    }

    /** `rotate_token` run without interference, with the outcome of its two file operations. */
    method RotateToken(issued: Token, now: nat, writeOk: bool, renameOk: bool) returns (ok: bool)
      modifies this
      ensures ok == (writeOk && renameOk)
      ensures var s := Agent(old(token), old(previousToken), old(disk), now, Drawn(issued), map[], {}, 0);
              var es := [ReadOld, SetGrace] + if ok then [WriteDisk, Commit] else [WriteFails];
              token == After(s, es).token && previousToken == After(s, es).grace && disk == After(s, es).disk
      ensures token == if ok then issued else old(token)
      ensures disk == if ok then issued else old(disk)
      ensures previousToken == Grace(old(token), now)
    {
      ghost var s := Agent(token, previousToken, disk, now, Drawn(issued), map[], {}, 0);
      var oldToken := token;
      previousToken := Grace(oldToken, now);
      AfterTwo(s, ReadOld, SetGrace);
      if !writeOk || !renameOk {
        AfterSnoc(s, [ReadOld, SetGrace], WriteFails);
        return false;
      }
      disk := issued;
      token := issued;
      ok := true;
      AfterSnoc(s, [ReadOld, SetGrace], WriteDisk);
      AfterSnoc(s, [ReadOld, SetGrace] + [WriteDisk], Commit);
      assert [ReadOld, SetGrace] + [WriteDisk, Commit] == [ReadOld, SetGrace] + [WriteDisk] + [Commit];
    }

    /** `auth_middleware` run without interference. */
    method Authenticate(path: string, header: Option<string>, now: nat) returns (accepted: bool)
      ensures accepted <==>
        || path == "/health"
        || (exists provided :: header == Some("Bearer " + provided) &&
             (|| provided == token
              || (previousToken.Grace? && previousToken.token == provided
                  && now < previousToken.at + 60_000_000_000)))
      ensures path != "/health" ==> forall provided | header == Some("Bearer " + provided) ::
                accepted <==> AcceptedAlone(Agent(token, previousToken, disk, now, Idle, map[], {}, 0), 0, provided)
    {
      ghost var s := Agent(token, previousToken, disk, now, Idle, map[], {}, 0);
      forall bearing ensures AcceptedAlone(s, 0, bearing) <==> Valid(s, bearing) {
        CheckedAlone(s, 0, bearing);
      }
      if previousToken.Grace? {
        ElapsedExactly(previousToken, now);
      }
      if path == "/health" {
        return true;
      }
      if header.None? || !(BEARER <= header.value) {
        return false;
      }
      var provided := header.value[|BEARER|..];
      assert header.value == BEARER + provided;
      assert forall other :: BEARER + other == header.value ==> other == provided by {
        forall other | BEARER + other == header.value ensures other == provided {
          assert other == (BEARER + other)[|BEARER|..];
        }
      }
      if provided == token {
        return true;
      }
      accepted := previousToken.Grace? && !Expired(previousToken, now) && provided == previousToken.token;
    }
  }

  /** A token that is current, or was displaced less than 60 seconds ago. */
  ghost predicate Valid(s: Agent, bearing: Token) {
    || bearing == s.token
    || (s.grace.Grace? && s.grace.token == bearing && s.now < s.grace.at + 60_000_000_000)
  }

  lemma ElapsedExactly(g: Grace, now: nat)
    requires g.Grace?
    ensures Expired(g, now) <==> now >= g.at + 60_000_000_000
  {
    if now >= g.at {
      WholeSeconds(now - g.at);
    }
  }

  /** The outcome of the two steps of a check between which nothing happens. */
  ghost predicate AcceptedAlone(s: Agent, id: nat, bearing: Token) {
    var checks := After(s, [BeginCheck(id, bearing), CompareToken(id)] + [CompareGrace(id)]).checks;
    id in checks && checks[id].stage.Done? && checks[id].stage.accepted
  }

  lemma CheckedAlone(s: Agent, id: nat, bearing: Token)
    requires id !in s.checks
    ensures AcceptedAlone(s, id, bearing) <==> Valid(s, bearing)
  {
    AfterTwo(s, BeginCheck(id, bearing), CompareToken(id));
    AfterSnoc(s, [BeginCheck(id, bearing), CompareToken(id)], CompareGrace(id));
    if s.grace.Grace? {
      ElapsedExactly(s.grace, s.now);
    }
  }

  lemma AfterSnoc(s: Agent, es: seq<Event>, e: Event)
    ensures After(s, es + [e]) == Apply(After(s, es), e)
  {
    assert (es + [e])[..|es + [e]| - 1] == es;
  }

  lemma AfterTwo(s: Agent, e: Event, f: Event)
    ensures After(s, [e, f]) == Apply(Apply(s, e), f)
  {
    AfterSnoc(s, [], e);
    AfterSnoc(s, [e], f);
    assert [] + [e] == [e] && [e] + [f] == [e, f];
  }

  // ---------------------------------------------------------------- invariant of every interleaving

  ghost predicate RotationInv(s: Agent) {
    && s.token in s.used
    && (s.grace.Grace? ==> s.grace.token in s.used && s.grace.at <= s.now)
    && (!s.rotation.Idle? ==> s.rotation.issued in s.used && s.rotation.issued != s.token)
    && (s.rotation.HasOld? || s.rotation.GraceSet? || s.rotation.OnDisk? ==> s.rotation.displaced == s.token)
    && (s.rotation.GraceSet? || s.rotation.OnDisk? ==> s.grace.Grace? && s.grace.token == s.token)
    && (s.rotation.OnDisk? ==> s.disk == s.rotation.issued)
  }

  /** A request that bore the current token finds it current, then in grace, then nowhere. */
  ghost predicate CheckInv(s: Agent, c: Check) {
    c.wanted ==>
      && c.bearing in s.used && (c.overtaken ==> c.committed) && (c.stage.Missed? ==> c.committed)
      && (!c.stage.Done? ==>
            && (!c.committed ==> c.bearing == s.token)
            && (c.committed ==>
                  && s.token != c.bearing && s.grace.Grace? && (s.grace.token == c.bearing <==> !c.overtaken)
                  && (!s.rotation.Idle? ==> s.rotation.issued != c.bearing)
                  && (s.rotation.GraceSet? || s.rotation.OnDisk? ==> c.overtaken)))
      && (c.stage.Done? ==> (c.stage.accepted <==> !c.stage.expired && !c.overtaken))
  }

  ghost predicate Inv(s: Agent) {
    && RotationInv(s)
    && forall id | id in s.checks :: CheckInv(s, s.checks[id])
  }

  lemma ApplyKeepsInv(s: Agent, e: Event)
    requires Inv(s)
    ensures Inv(Apply(s, e))
  {
    if Enabled(s, e) {
      forall id | id in Apply(s, e).checks ensures CheckInv(Apply(s, e), Apply(s, e).checks[id]) {
        if id in s.checks {
          assert CheckInv(s, s.checks[id]);
        }
      }
    }
  }

  lemma {:induction false} RunKeepsInv(s: Agent, es: seq<Event>)
    requires Inv(s)
    ensures Inv(After(s, es))
  {
    if es != [] {
      RunKeepsInv(s, es[..|es| - 1]);
      ApplyKeepsInv(After(s, es[..|es| - 1]), es[|es| - 1]);
    }
  }

  /**
   Over every interleaving: a request bearing the token that was current when its check
   began is accepted if and only if it does not reach a grace token 60 s old or older, and
   was not overtaken: no rotation set its grace token, while the check ran, after another
   had finished.
   */
  lemma CurrentTokenAccepted(token: Token, disk: Token, es: seq<Event>, id: nat)
    requires id in After(Start(token, disk), es).checks
    requires var c := After(Start(token, disk), es).checks[id]; c.stage.Done? && c.wanted
    ensures var c := After(Start(token, disk), es).checks[id];
            c.stage.accepted <==> !c.stage.expired && !c.overtaken
  {
    RunKeepsInv(Start(token, disk), es);
    assert CheckInv(After(Start(token, disk), es), After(Start(token, disk), es).checks[id]);
  }

  /** A check that is running, and whose token is valid as it runs. */
  ghost predicate RunsValid(s: Agent, id: nat, bearing: Token) {
    id in s.checks && !s.checks[id].stage.Done? && s.checks[id].bearing == bearing && Valid(s, bearing)
  }

  lemma AcceptingStep(s: Agent, e: Event, id: nat)
    requires var checks := Apply(s, e).checks;
             id in checks && checks[id].stage.Done? && checks[id].stage.accepted
    ensures var c := Apply(s, e).checks[id];
            || RunsValid(s, id, c.bearing)
            || (id in s.checks && s.checks[id].stage == c.stage && s.checks[id].bearing == c.bearing)
  {
    if s.grace.Grace? {
      ElapsedExactly(s.grace, s.now);
    }
  }

  /**
   Over every interleaving: whatever check has been accepted, its token was current, or
   displaced less than 60 seconds before, at some moment while the check ran.
   */
  lemma {:induction false} AcceptedSoundly(token: Token, disk: Token, es: seq<Event>, id: nat) returns (k: nat)
    requires var checks := After(Start(token, disk), es).checks;
             id in checks && checks[id].stage.Done? && checks[id].stage.accepted
    ensures var bearing := After(Start(token, disk), es).checks[id].bearing;
            k < |es| && RunsValid(After(Start(token, disk), es[..k]), id, bearing)
  {
    var n := |es| - 1;
    var s := After(Start(token, disk), es[..n]);
    AcceptingStep(s, es[n], id);
    var bearing := After(Start(token, disk), es).checks[id].bearing;
    if RunsValid(s, id, bearing) {
      k := n;
    } else {
      k := AcceptedSoundly(token, disk, es[..n], id);
      assert es[..n][..k] == es[..k];
    }
  }

  /** The same fact for a check still running: its next comparison decides it as promised. */
  lemma MissedCheckFindsGraceToken(token: Token, disk: Token, es: seq<Event>, id: nat)
    requires var s := After(Start(token, disk), es);
             id in s.checks && s.checks[id].stage.Missed? && s.checks[id].wanted && !s.checks[id].overtaken
    ensures var s := After(Start(token, disk), es);
            s.grace.Grace? && s.grace.at <= s.now &&
            (Apply(s, CompareGrace(id)).checks[id].stage.accepted <==>
             s.now < s.grace.at + 60_000_000_000)
  {
    var s := After(Start(token, disk), es);
    RunKeepsInv(Start(token, disk), es);
    assert CheckInv(s, s.checks[id]);
    WholeSeconds(s.now - s.grace.at);
  }

  lemma WholeSeconds(d: nat)
    ensures d / NANOS_PER_SEC >= GRACE_SECS <==> d >= 60_000_000_000
  {
  }

  function RotationEvents(next: Token): seq<Event> {
    [Draw(next), ReadOld, SetGrace, WriteDisk, Commit]
  }

  /** A rotation that nothing interrupts. */
  ghost predicate Rotated(s: Agent, t: Agent, next: Token) {
    && t.token == t.disk == next && t.grace == Grace(s.token, s.now) && t.now == s.now
    && t.rotation.Idle? && t.used == s.used + {next} && t.checks.Keys == s.checks.Keys
    && forall id | id in s.checks :: t.checks[id] == SeesCommit(SeesGrace(s.checks[id]))
  }

  lemma WholeRotation(s: Agent, next: Token)
    requires s.rotation.Idle? && next !in s.used
    ensures Rotated(s, After(s, RotationEvents(next)), next)
  {
    AfterTwo(s, Draw(next), ReadOld);
    AfterSnoc(s, [Draw(next), ReadOld], SetGrace);
    AfterSnoc(s, [Draw(next), ReadOld, SetGrace], WriteDisk);
    AfterSnoc(s, [Draw(next), ReadOld, SetGrace, WriteDisk], Commit);
    assert [Draw(next), ReadOld] + [SetGrace] == [Draw(next), ReadOld, SetGrace];
    assert [Draw(next), ReadOld, SetGrace] + [WriteDisk] == [Draw(next), ReadOld, SetGrace, WriteDisk];
    assert [Draw(next), ReadOld, SetGrace, WriteDisk] + [Commit] == RotationEvents(next);
  }

  lemma {:induction false} AfterConcat(s: Agent, a: seq<Event>, b: seq<Event>)
    ensures After(s, a + b) == After(After(s, a), b)
  {
    if b == [] {
      assert a + b == a;
    } else {
      AfterConcat(s, a, b[..|b| - 1]);
      assert (a + b)[..|a + b| - 1] == a + b[..|b| - 1];
    }
  }

  /** A rejection of a request that bore the current token when its check began. */
  ghost predicate WronglyRejected(c: Check) {
    c.wanted && c.overtaken && c.stage == Done(false, false)
  }

  /**
   Overtaking happens: with the clock standing still, a check that bears the current token
   is turned away when two rotations finish around it.
   */
  lemma OvertakenCheckRejected(token: Token, b: Token, c: Token) returns (es: seq<Event>)
    requires token != b && token != c && b != c
    ensures var s := After(Start(token, token), es);
            s.now == 0 && 0 in s.checks && WronglyRejected(s.checks[0])
  {
    var s0 := Start(token, token);
    AfterSnoc(s0, [], BeginCheck(0, token));
    var begun := [] + [BeginCheck(0, token)];
    var s1 := After(s0, begun);
    WholeRotation(s1, b);
    AfterConcat(s0, begun, RotationEvents(b));
    var once := begun + RotationEvents(b);
    var s2 := After(s0, once);
    WholeRotation(s2, c);
    AfterConcat(s0, once, RotationEvents(c));
    es := once + RotationEvents(c) + [CompareToken(0)] + [CompareGrace(0)];
    AfterSnoc(s0, once + RotationEvents(c), CompareToken(0));
    AfterSnoc(s0, once + RotationEvents(c) + [CompareToken(0)], CompareGrace(0));
    LateCompare(After(s0, once + RotationEvents(c)), 0);
  }

  lemma LateCompare(s: Agent, id: nat)
    requires id in s.checks && s.checks[id].stage.Begun? && s.checks[id].wanted && s.checks[id].overtaken
    requires s.checks[id].bearing != s.token && s.grace.Grace? && s.checks[id].bearing != s.grace.token
    requires s.grace.at == s.now
    ensures var t := Apply(Apply(s, CompareToken(id)), CompareGrace(id));
            t.now == s.now && id in t.checks && WronglyRejected(t.checks[id])
  {
  }

  // ---------------------------------------------------------------- displaced tokens

  /** Held nowhere any more: not current, not in grace, not the token being installed. */
  ghost predicate Dead(s: Agent, t: Token) {
    && t in s.used
    && t != s.token
    && !(s.grace.Grace? && s.grace.token == t)
    && !(!s.rotation.Idle? && s.rotation.issued == t)
  }

  ghost predicate AcceptedFor(s: Agent, id: nat, t: Token) {
    id in s.checks && s.checks[id].bearing == t && s.checks[id].stage.Done? && s.checks[id].stage.accepted
  }

  lemma DeadStaysDead(s: Agent, e: Event, t: Token)
    requires Inv(s) && Dead(s, t)
    ensures Dead(Apply(s, e), t)
    ensures forall id :: AcceptedFor(Apply(s, e), id, t) ==> AcceptedFor(s, id, t)
  {
  }

  /** A dead token is dead for the rest of every run and no further request bearing it is accepted. */
  lemma {:induction false} DeadNeverAccepted(s: Agent, es: seq<Event>, t: Token)
    requires Inv(s) && Dead(s, t)
    ensures Dead(After(s, es), t)
    ensures forall id :: AcceptedFor(After(s, es), id, t) ==> AcceptedFor(s, id, t)
  {
    if es != [] {
      var init := es[..|es| - 1];
      DeadNeverAccepted(s, init, t);
      RunKeepsInv(s, init);
      DeadStaysDead(After(s, init), es[|es| - 1], t);
    }
  }

  /**
   A token that was displaced is dead as soon as the next rotation has set its grace token,
   whether or not that rotation finishes.
   */
  lemma NextRotationEndsGrace(s: Agent, t: Token)
    requires Inv(s) && Enabled(s, SetGrace)
    requires t in s.used && t != s.token && t != s.rotation.issued
    ensures Dead(Apply(s, SetGrace), t)
  {
  }

  /** The state of a token that was current when `base` rotations had finished. */
  ghost predicate Fading(s: Agent, t: Token, base: nat) {
    && t in s.used
    && s.commits >= base
    && (s.commits == base ==> t == s.token)
    && (s.commits > base ==> t != s.token && (!s.rotation.Idle? ==> s.rotation.issued != t))
    && (s.commits == base + 1 && (s.rotation.GraceSet? || s.rotation.OnDisk?) ==> Dead(s, t))
    && (s.commits >= base + 2 ==> Dead(s, t))
  }

  lemma FadingStep(s: Agent, e: Event, t: Token, base: nat)
    requires Inv(s) && Fading(s, t, base)
    ensures Fading(Apply(s, e), t, base)
  {
  }

  lemma {:induction false} FadingRun(s: Agent, es: seq<Event>, t: Token, base: nat)
    requires Inv(s) && Fading(s, t, base)
    ensures Fading(After(s, es), t, base)
  {
    if es != [] {
      var init := es[..|es| - 1];
      FadingRun(s, init, t, base);
      RunKeepsInv(s, init);
      FadingStep(After(s, init), es[|es| - 1], t, base);
    }
  }

  /**
   Over every interleaving: once two rotations have finished, the token that was current
   before them is never accepted again.
   */
  lemma DisplacedTwiceNeverAccepted(token: Token, disk: Token, es: seq<Event>, more: seq<Event>, rest: seq<Event>)
    requires var s := After(Start(token, disk), es);
             After(s, more).commits >= s.commits + 2
    ensures var s := After(Start(token, disk), es);
            var twice := After(s, more);
            && Dead(twice, s.token)
            && forall id :: AcceptedFor(After(twice, rest), id, s.token) ==> AcceptedFor(twice, id, s.token)
  {
    var s := After(Start(token, disk), es);
    RunKeepsInv(Start(token, disk), es);
    FadingRun(s, more, s.token, s.commits);
    RunKeepsInv(s, more);
    DeadNeverAccepted(After(s, more), rest, s.token);
  }

  // ---------------------------------------------------------------- the token file

  ghost predicate DiskInv(s: Agent, agreed: bool) {
    && (s.rotation.OnDisk? ==> s.disk == s.rotation.issued)
    && (!s.rotation.OnDisk? ==> (s.disk == s.token <==> agreed || s.commits > 0))
  }

  lemma DiskStep(s: Agent, e: Event, agreed: bool)
    requires RotationInv(s) && DiskInv(s, agreed)
    ensures DiskInv(Apply(s, e), agreed)
  {
  }

  lemma {:induction false} DiskRun(token: Token, disk: Token, es: seq<Event>)
    ensures DiskInv(After(Start(token, disk), es), token == disk)
  {
    if es != [] {
      var init := es[..|es| - 1];
      DiskRun(token, disk, init);
      RunKeepsInv(Start(token, disk), init);
      DiskStep(After(Start(token, disk), init), es[|es| - 1], token == disk);
    }
  }

  /**
   Whenever no rotation is between its two writes, the token file holds the current token
   if and only if it did at the start or some rotation has finished since. So a failed
   rotation never separates them and a finished one always brings them together.
   */
  lemma DiskAgreesBetweenRotations(token: Token, disk: Token, es: seq<Event>)
    requires !After(Start(token, disk), es).rotation.OnDisk?
    ensures var s := After(Start(token, disk), es);
            s.disk == s.token <==> token == disk || s.commits > 0
  {
    DiskRun(token, disk, es);
  }
}
