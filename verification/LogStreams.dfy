/**
 The log-stream counter (`ACTIVE_STREAMS` in panel/agent/src/routes/logs.rs).

 Here the limit is checked first and the counter is increased later, in another task,
 so several requests can pass the same check. Each access to the counter is one step.
 */
module LogStreams {

  const MAX_STREAMS: nat := 10

  datatype Phase =
    | Passed   // saw the counter below the limit, stream not started yet
    | Live     // counted: from the increment to the release (guard dropped, or `tail` not started)

  /** `peak` is bookkeeping of the model: the most requests ever in phase Passed at once. */
  datatype Streams = Streams(counter: nat, phase: map<nat, Phase>, peak: nat)

  const INIT := Streams(0, map[], 0)

  datatype Event =
    | Check(id: nat)     // load and compare; above the limit the request is answered 429
    | Abandon(id: nat)   // unknown log type, or the WebSocket upgrade never completes
    | Start(id: nat)     // fetch_add at the top of handle_stream
    | Release(id: nat)   // fetch_sub: spawn failed, or the guard is dropped

  function Having(phase: map<nat, Phase>, p: Phase): set<nat> {
    set id | id in phase && phase[id] == p
  }

  function InPhase(s: Streams, p: Phase): set<nat> {
    Having(s.phase, p)
  }

  predicate Enabled(s: Streams, e: Event) {
    match e
    case Check(id) => id !in s.phase
    case Abandon(id) => id in InPhase(s, Passed)
    case Start(id) => id in InPhase(s, Passed)
    case Release(id) => id in InPhase(s, Live)
  }

  function Max(a: nat, b: nat): nat {
    if a < b then b else a
  }

  /** An event that is not possible in a state changes nothing. */
  function Apply(s: Streams, e: Event): Streams {
    if !Enabled(s, e) then s else
    match e
    case Check(id) =>
      if s.counter >= MAX_STREAMS then s
      else
        var phase := s.phase[id := Passed];
        Streams(s.counter, phase, Max(s.peak, |Having(phase, Passed)|))
    case Abandon(id) => s.(phase := s.phase - {id})
    case Start(id) => s.(counter := s.counter + 1, phase := s.phase[id := Live])
    case Release(id) =>
      s.(counter := if s.counter == 0 then UNDERFLOWN else s.counter - 1, phase := s.phase - {id})
  }

  /** What `fetch_sub(1)` leaves when a 64-bit counter is already 0. */
  const UNDERFLOWN: nat := 0xFFFF_FFFF_FFFF_FFFF

  function After(es: seq<Event>): Streams {
    if es == [] then INIT else Apply(After(es[..|es| - 1]), es[|es| - 1])
  }

  /** The counter as `stream_handler`, `handle_stream` and `StreamGuard` update it in place. */
  class Server {
    var counter: nat
    var phase: map<nat, Phase>
    ghost var peak: nat

    constructor ()
      ensures View() == INIT
    {
      counter, phase, peak := 0, map[], 0;
    }

    ghost function View(): Streams
      reads this
    {
      Streams(counter, phase, peak)
    }

    method StreamHandler(id: nat) returns (passed: bool)
      requires Enabled(View(), Check(id))
      modifies this
      ensures View() == Apply(old(View()), Check(id))
      ensures passed == (id in phase)
    {
      var current := counter;
      passed := current < MAX_STREAMS;
      if passed {
        phase := phase[id := Passed];
        peak := Max(peak, |Having(phase, Passed)|);
      }
    }

    method HandleStream(id: nat)
      requires Enabled(View(), Start(id))
      modifies this
      ensures View() == Apply(old(View()), Start(id))
    {
      counter := counter + 1;
      phase := phase[id := Live];
    }

    /** The failed spawn and the drop of `StreamGuard`. */
    method Drop(id: nat)
      requires Enabled(View(), Release(id))
      modifies this
      ensures View() == Apply(old(View()), Release(id))
    {
      counter := if counter == 0 then UNDERFLOWN else counter - 1;
      phase := phase - {id};
    }
  }

  lemma HavingAdded(phase: map<nat, Phase>, id: nat)
    requires id !in phase
    ensures |Having(phase[id := Passed], Passed)| == |Having(phase, Passed)| + 1
    ensures Having(phase[id := Passed], Live) == Having(phase, Live)
  {
    assert Having(phase[id := Passed], Passed) == Having(phase, Passed) + {id};
  }

  lemma HavingStarted(phase: map<nat, Phase>, id: nat)
    requires id in Having(phase, Passed)
    ensures |Having(phase[id := Live], Live)| == |Having(phase, Live)| + 1
    ensures |Having(phase[id := Live], Passed)| == |Having(phase, Passed)| - 1
  {
    assert Having(phase[id := Live], Live) == Having(phase, Live) + {id};
    assert Having(phase[id := Live], Passed) == Having(phase, Passed) - {id};
  }

  lemma HavingRemoved(phase: map<nat, Phase>, id: nat, p: Phase)
    requires id in Having(phase, p)
    ensures |Having(phase - {id}, p)| == |Having(phase, p)| - 1
    ensures forall q | q != p :: Having(phase - {id}, q) == Having(phase, q)
  {
    assert Having(phase - {id}, p) == Having(phase, p) - {id};
  }

  ghost predicate Inv(s: Streams) {
    && s.counter == |InPhase(s, Live)|
    && |InPhase(s, Passed)| <= s.peak
    && |InPhase(s, Live)| + |InPhase(s, Passed)| <= MAX_STREAMS - 1 + s.peak
  }

  /**
   In every interleaving the counter equals the number of streams between increment and
   release, and live streams stay at or below 9 plus the peak number of requests that
   were between the check and the increment at the same time.
   */
  lemma {:induction false} CounterExactAndBounded(es: seq<Event>)
    ensures After(es).counter == |InPhase(After(es), Live)|
    ensures |InPhase(After(es), Live)| <= 9 + After(es).peak
    ensures Inv(After(es))
  {
    if es == [] {
      assert InPhase(INIT, Live) == {} && InPhase(INIT, Passed) == {};
    } else {
      var s, e := After(es[..|es| - 1]), es[|es| - 1];
      CounterExactAndBounded(es[..|es| - 1]);
      if Enabled(s, e) {
        match e {
          case Check(id) => HavingAdded(s.phase, id);
          case Start(id) => HavingStarted(s.phase, id);
          case Abandon(id) => HavingRemoved(s.phase, id, Passed);
          case Release(id) => HavingRemoved(s.phase, id, Live);
        }
      }
    }
  }

  /** A release never finds the counter at zero. */
  lemma ReleaseNeverUnderflows(es: seq<Event>, id: nat)
    requires Enabled(After(es), Release(id))
    ensures After(es).counter > 0
    ensures Apply(After(es), Release(id)).counter == After(es).counter - 1
  {
    CounterExactAndBounded(es);
  }

  /** A request is answered 429 if and only if ten streams are live. */
  lemma TurnedAwayIffTenLive(es: seq<Event>, id: nat)
    requires Enabled(After(es), Check(id))
    ensures id !in Apply(After(es), Check(id)).phase <==> |InPhase(After(es), Live)| >= 10
  {
    CounterExactAndBounded(es);
  }

  // ---------------------------------------------------------------- the bound is reached

  lemma ExtendRun(es: seq<Event>, e: Event)
    ensures After(es + [e]) == Apply(After(es), e)
  {
    assert (es + [e])[..|es + [e]| - 1] == es;
  }

  /** `n` more requests pass the check while the counter stays where it is. */
  lemma {:induction false} PassMany(es: seq<Event>, first: nat, n: nat) returns (longer: seq<Event>)
    requires forall id: nat | id in After(es).phase :: id < first
    requires After(es).counter < MAX_STREAMS && InPhase(After(es), Passed) == {}
    requires After(es).peak <= 1
    ensures After(longer).counter == After(es).counter
    ensures InPhase(After(longer), Live) == InPhase(After(es), Live)
    ensures |InPhase(After(longer), Passed)| == n
    ensures forall id: nat | id in After(longer).phase :: id < first + n
    ensures After(longer).peak <= Max(1, n)
  {
    longer := es;
    if n > 0 {
      var shorter := PassMany(es, first, n - 1);
      var id := first + n - 1;
      longer := shorter + [Check(id)];
      ExtendRun(shorter, Check(id));
      HavingAdded(After(shorter).phase, id);
    }
  }

  /** Every request that has passed the check starts its stream. */
  lemma {:induction false} StartAll(es: seq<Event>, n: nat) returns (longer: seq<Event>)
    requires |InPhase(After(es), Passed)| == n
    ensures |InPhase(After(longer), Live)| == |InPhase(After(es), Live)| + n
    ensures InPhase(After(longer), Passed) == {}
    ensures After(longer).counter == After(es).counter + n
    ensures After(longer).peak == After(es).peak && After(longer).phase.Keys == After(es).phase.Keys
    decreases n
  {
    longer := es;
    if n > 0 {
      var id :| id in InPhase(After(es), Passed);
      ExtendRun(es, Start(id));
      HavingStarted(After(es).phase, id);
      longer := StartAll(es + [Start(id)], n - 1);
    }
  }

  /** One stream after the other, none of them overlapping another's check. */
  lemma {:induction false} OneByOne(n: nat) returns (es: seq<Event>)
    requires n < MAX_STREAMS
    ensures |InPhase(After(es), Live)| == After(es).counter == n && InPhase(After(es), Passed) == {}
    ensures forall id: nat | id in After(es).phase :: id < n
    ensures After(es).peak <= 1
  {
    if n == 0 {
      es := [];
      assert InPhase(INIT, Live) == {};
    } else {
      var fewer := OneByOne(n - 1);
      var passed := PassMany(fewer, n - 1, 1);
      es := StartAll(passed, 1);
    }
  }

  /** The bound is tight: n requests inside the window bring 9 + n streams to life. */
  lemma WindowLetsLimitBePassed(n: nat) returns (es: seq<Event>)
    requires n > 0
    ensures |InPhase(After(es), Live)| == 9 + n
    ensures After(es).peak == n
  {
    var nine := OneByOne(MAX_STREAMS - 1);
    var window := PassMany(nine, MAX_STREAMS - 1, n);
    es := StartAll(window, n);
    CounterExactAndBounded(es);
  }
}
