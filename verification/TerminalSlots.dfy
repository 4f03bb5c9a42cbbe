/**
 The slot counter of the web terminal (`ACTIVE_TERMINALS` in
 panel/agent/src/routes/terminal.rs) and the panic button that resets it
 (`kill_terminals` in panel/agent/src/routes/security.rs).

 Every atomic access to the counter is one step; steps of different connections
 interleave in any order. The add comes before the limit check, and a release is a
 saturating subtraction.
 */
module TerminalSlots {

  const MAX_TERMINAL_SESSIONS: nat := 20
  const U32_RANGE: nat := 0x1_0000_0000

  /** A connection that has added itself to the counter and not yet taken itself off. */
  datatype Phase =
    | Refused      // saw the counter at the limit, about to undo its add
    | Validating   // admitted: ticket, domain and directory checks, WebSocket upgrade, shell start
    | Session      // admitted: the terminal loop runs
    | Lost         // admitted, but the upgrade never completed: nothing will release the slot

  /**
   `killed` is the sum of the values `kill_terminals` reported; it is bookkeeping of the
   model and no part of the program.
   */
  datatype Slots = Slots(counter: nat, phase: map<nat, Phase>, killed: nat)

  const INIT := Slots(0, map[], 0)

  datatype Event =
    | Arrive(id: nat)
    | Undo(id: nat)
    | Fail(id: nat)
    | Open(id: nat)
    | Lose(id: nat)
    | End(id: nat)
    | Kill

  predicate InPhase(s: Slots, id: nat, p: Phase) {
    id in s.phase && s.phase[id] == p
  }

  predicate Enabled(s: Slots, e: Event) {
    match e
    case Arrive(id) => id !in s.phase
    case Undo(id) => InPhase(s, id, Refused)
    case Fail(id) => InPhase(s, id, Validating)
    case Open(id) => InPhase(s, id, Validating)
    case Lose(id) => InPhase(s, id, Validating)
    case End(id) => InPhase(s, id, Session)
    case Kill => true
  }

  /** `fetch_add(1)` on a u32 wraps around. */
  function FetchAdd(counter: nat): nat {
    (counter + 1) % U32_RANGE
  }

  function Release(s: Slots, id: nat): Slots {
    Slots(if s.counter == 0 then 0 else s.counter - 1, s.phase - {id}, s.killed)
  }

  /** An event that is not possible in a state changes nothing. */
  function Apply(s: Slots, e: Event): Slots {
    if !Enabled(s, e) then s else
    match e
    case Arrive(id) =>
      var admitted := s.counter < MAX_TERMINAL_SESSIONS;
      Slots(FetchAdd(s.counter), s.phase[id := if admitted then Validating else Refused], s.killed)
    case Undo(id) => Release(s, id)
    case Fail(id) => Release(s, id)
    case Open(id) => s.(phase := s.phase[id := Session])
    case Lose(id) => s.(phase := s.phase[id := Lost])
    case End(id) => Release(s, id)
    case Kill => Slots(0, s.phase, s.killed + s.counter)
  }

  function After(es: seq<Event>): Slots {
    if es == [] then INIT else Apply(After(es[..|es| - 1]), es[|es| - 1])
  }

  /** The counter as `ws_handler`, `handle_terminal` and `kill_terminals` update it in place. */
  class Server {
    var counter: nat
    var phase: map<nat, Phase>
    ghost var killed: nat

    constructor ()
      ensures View() == INIT
    {
      counter, phase, killed := 0, map[], 0;
    }

    ghost function View(): Slots
      reads this
    {
      Slots(counter, phase, killed)
    }

    method Connect(id: nat) returns (admitted: bool)
      requires Enabled(View(), Arrive(id))
      modifies this
      ensures View() == Apply(old(View()), Arrive(id))
      ensures admitted == InPhase(View(), id, Validating)
    {
      var current := counter;
      counter := FetchAdd(counter);
      admitted := current < MAX_TERMINAL_SESSIONS;
      phase := phase[id := if admitted then Validating else Refused];
    }

    /** Every path that gives a slot back: refusal, failed validation, failed start, end of session. */
    method GiveBack(id: nat, ghost e: Event)
      requires e == Undo(id) || e == Fail(id) || e == End(id)
      requires Enabled(View(), e)
      modifies this
      ensures View() == Apply(old(View()), e)
    {
      counter := if counter == 0 then 0 else counter - 1;
      phase := phase - {id};
    }

    method KillTerminals() returns (reported: nat)
      modifies this
      ensures View() == Apply(old(View()), Kill)
      ensures reported == old(counter)
    {
      reported := counter;
      counter := 0;
      killed := killed + reported;
    }
  }

  // ---------------------------------------------------------------- safety over every interleaving

  function Admitted(s: Slots): set<nat> {
    set id | id in s.phase && s.phase[id] != Refused
  }

  /** Fewer connections hold or undo a slot at once than a u32 can count. */
  ghost predicate Countable(es: seq<Event>) {
    forall i | 0 <= i <= |es| :: |After(es[..i]).phase| < U32_RANGE
  }

  ghost predicate Inv(s: Slots) {
    && s.counter <= |s.phase| <= s.counter + s.killed
    && |Admitted(s)| <= MAX_TERMINAL_SESSIONS + s.killed
  }

  lemma ReleaseKeepsInv(s: Slots, id: nat)
    requires Inv(s) && id in s.phase
    ensures Inv(Release(s, id))
  {
    var t := Release(s, id);
    assert t.phase.Keys == s.phase.Keys - {id};
    assert |t.phase.Keys| == |s.phase.Keys| - 1;
    CardinalityMonotone(Admitted(t), Admitted(s));
  }

  lemma {:induction false} CardinalityMonotone(a: set<nat>, b: set<nat>)
    requires a <= b
    ensures |a| <= |b|
  {
    assert b == a + (b - a);
  }

  lemma ArriveKeepsInv(s: Slots, id: nat)
    requires Inv(s) && id !in s.phase && |Apply(s, Arrive(id)).phase| < U32_RANGE
    ensures Inv(Apply(s, Arrive(id))) && Apply(s, Arrive(id)).counter == s.counter + 1
  {
    var t := Apply(s, Arrive(id));
    assert t.phase.Keys == s.phase.Keys + {id};
    assert |t.phase.Keys| == |s.phase| + 1;
    if s.counter < MAX_TERMINAL_SESSIONS {
      CardinalityMonotone(Admitted(t), t.phase.Keys);
    } else {
      assert Admitted(t) == Admitted(s);
    }
  }

  lemma RelabelKeepsInv(s: Slots, id: nat, p: Phase)
    requires Inv(s) && InPhase(s, id, Validating) && p != Refused
    ensures Inv(s.(phase := s.phase[id := p]))
  {
    var t := s.(phase := s.phase[id := p]);
    assert t.phase.Keys == s.phase.Keys;
    assert Admitted(t) == Admitted(s);
  }

  lemma KillKeepsInv(s: Slots)
    requires Inv(s)
    ensures Inv(Slots(0, s.phase, s.killed + s.counter))
  {
    assert Admitted(Slots(0, s.phase, s.killed + s.counter)) == Admitted(s);
  }

  lemma ApplyKeepsInv(s: Slots, e: Event)
    requires Inv(s)
    requires |Apply(s, e).phase| < U32_RANGE
    ensures Inv(Apply(s, e))
  {
    if Enabled(s, e) {
      match e {
        case Arrive(id) => ArriveKeepsInv(s, id);
        case Undo(id) => ReleaseKeepsInv(s, id);
        case Fail(id) => ReleaseKeepsInv(s, id);
        case End(id) => ReleaseKeepsInv(s, id);
        case Open(id) => RelabelKeepsInv(s, id, Session);
        case Lose(id) => RelabelKeepsInv(s, id, Lost);
        case Kill => KillKeepsInv(s);
      }
    }
  }

  lemma CountablePrefix(es: seq<Event>)
    requires es != [] && Countable(es)
    ensures Countable(es[..|es| - 1])
  {
    var init := es[..|es| - 1];
    forall i | 0 <= i <= |init| ensures |After(init[..i]).phase| < U32_RANGE {
      assert init[..i] == es[..i];
    }
  }

  /**
   Over every interleaving, with any number of resets: the counter never exceeds the
   number of slot holders, it misses at most what the resets reported, and at most 20
   sessions plus what the resets reported are admitted at the same time.
   */
  lemma {:induction false} CounterBounds(es: seq<Event>)
    requires Countable(es)
    ensures After(es).counter <= |After(es).phase| <= After(es).counter + After(es).killed
    ensures |Admitted(After(es))| <= 20 + After(es).killed
  {
    if es == [] {
      assert Admitted(INIT) == {};
    } else {
      CountablePrefix(es);
      CounterBounds(es[..|es| - 1]);
      assert es[..|es|] == es;
      ApplyKeepsInv(After(es[..|es| - 1]), es[|es| - 1]);
    }
  }

  /** The add never wraps: a connection's `fetch_add` really increases the counter. */
  lemma AddNeverWraps(es: seq<Event>, id: nat)
    requires Countable(es) && id !in After(es).phase && |Apply(After(es), Arrive(id)).phase| < U32_RANGE
    ensures Apply(After(es), Arrive(id)).counter == After(es).counter + 1
  {
    CounterBounds(es);
    ArriveKeepsInv(After(es), id);
  }

  ghost predicate NoKill(es: seq<Event>) {
    forall i | 0 <= i < |es| :: !es[i].Kill?
  }

  lemma {:induction false} NothingKilled(es: seq<Event>)
    requires NoKill(es)
    ensures After(es).killed == 0
  {
    if es != [] {
      NothingKilled(es[..|es| - 1]);
    }
  }

  /** Without resets the counter is exact and admission never passes the limit, although the add precedes the check. */
  lemma WithoutKillExact(es: seq<Event>)
    requires NoKill(es) && Countable(es)
    ensures After(es).counter == |After(es).phase|
    ensures |Admitted(After(es))| <= 20
  {
    CounterBounds(es);
    NothingKilled(es);
  }

  /** Without resets a connection is turned away if and only if 20 slots are held, refused ones included. */
  lemma RefusedIffSlotsHeld(es: seq<Event>, id: nat)
    requires NoKill(es) && Countable(es) && Enabled(After(es), Arrive(id))
    ensures InPhase(Apply(After(es), Arrive(id)), id, Refused) <==> |After(es).phase| >= 20
  {
    WithoutKillExact(es);
  }

  // ---------------------------------------------------------------- the bounds are reached

  /** Exactly the connections below `n` hold a slot, all of them with a running session. */
  ghost predicate Running(s: Slots, n: nat) {
    && (forall id: nat :: id in s.phase ==> id < n && s.phase[id] == Session)
    && (forall id: nat | id < n :: id in s.phase)
  }

  lemma {:induction false} FirstIds(n: nat) returns (ids: set<nat>)
    ensures |ids| == n && forall id: nat :: id in ids <==> id < n
  {
    if n == 0 {
      ids := {};
    } else {
      var fewer := FirstIds(n - 1);
      ids := fewer + {n - 1};
    }
  }

  lemma RunningCount(s: Slots, n: nat)
    requires Running(s, n)
    ensures |Admitted(s)| == n
  {
    var ids := FirstIds(n);
    assert Admitted(s) == ids;
  }

  lemma ExtendRun(es: seq<Event>, e: Event)
    ensures After(es + [e]) == Apply(After(es), e)
  {
    assert (es + [e])[..|es + [e]| - 1] == es;
  }

  /** Connections arrive and open their sessions until `n` more are running. */
  lemma {:induction false} AdmitMany(es: seq<Event>, running: nat, n: nat) returns (longer: seq<Event>)
    requires Running(After(es), running) && After(es).counter == 0 && n <= MAX_TERMINAL_SESSIONS
    ensures Running(After(longer), running + n)
    ensures After(longer).counter == n && After(longer).killed == After(es).killed
    ensures NoKill(es) ==> NoKill(longer)
  {
    longer := es;
    if n > 0 {
      var shorter := AdmitMany(es, running, n - 1);
      var id := running + n - 1;
      longer := shorter + [Arrive(id)] + [Open(id)];
      ExtendRun(shorter, Arrive(id));
      ExtendRun(shorter + [Arrive(id)], Open(id));
    }
  }

  /**
   The bound of `CounterBounds` is tight: after k resets, 20 * (k + 1) sessions can be
   running, because the sessions a reset forgot are still there.
   */
  lemma {:induction false} ResetsLetSessionsAccumulate(k: nat) returns (es: seq<Event>)
    ensures Running(After(es), 20 * (k + 1))
    ensures After(es).counter == 20 && After(es).killed == 20 * k
    ensures |Admitted(After(es))| == 20 + After(es).killed
  {
    if k == 0 {
      es := AdmitMany([], 0, MAX_TERMINAL_SESSIONS);
    } else {
      var earlier := ResetsLetSessionsAccumulate(k - 1);
      ExtendRun(earlier, Kill);
      es := AdmitMany(earlier + [Kill], MAX_TERMINAL_SESSIONS * k, MAX_TERMINAL_SESSIONS);
    }
    RunningCount(After(es), MAX_TERMINAL_SESSIONS * (k + 1));
  }

  /** All slots taken, one connection refused, then one session ends: the refused one still counts. */
  lemma RefusedOneStillCounts(s: Slots, n: nat) returns (t: Slots)
    requires Running(s, n + 1) && s.counter == n + 1 == MAX_TERMINAL_SESSIONS
    ensures t == Apply(Apply(s, Arrive(n + 1)), End(n))
    ensures |Admitted(t)| == n && t.counter == 20 && n + 2 !in t.phase
  {
    var crowded := Apply(s, Arrive(n + 1));
    assert crowded.phase == s.phase[n + 1 := Refused];
    t := Release(crowded, n);
    var ids := FirstIds(n);
    assert Admitted(t) == ids;
  }

  /**
   A refused connection counts until it has undone its add, so a newcomer can be refused
   while only 19 sessions are admitted.
   */
  lemma RefusalMayBeSpurious() returns (es: seq<Event>, id: nat)
    ensures NoKill(es) && Enabled(After(es), Arrive(id))
    ensures |Admitted(After(es))| == 19
    ensures InPhase(Apply(After(es), Arrive(id)), id, Refused)
  {
    var n: nat := MAX_TERMINAL_SESSIONS - 1;
    var full := AdmitMany([], 0, n + 1);
    ExtendRun(full, Arrive(n + 1));
    ExtendRun(full + [Arrive(n + 1)], End(n));
    es, id := full + [Arrive(n + 1)] + [End(n)], n + 2;
    var t := RefusedOneStillCounts(After(full), n);
  }
}
