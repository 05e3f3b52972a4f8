/** The northbridge's rotary encoder: an interrupt handler and two readers over shared counters. */
module Encoder {
  import opened Bytes

  const STEPS_PER_DETENT: int := 4
  const SIGN: int := 1

  /** The two quadrature lines, A in bit 1 and B in bit 0. */
  type Lines = s: nat | s < 4

  const QUAD_TABLE: seq<int> := [
    0, -1, 1, 0,
    1, 0, 0, -1,
    -1, 0, 0, 1,
    0, 1, -1, 0]

  function Dir(from: Lines, to: Lines): (d: int)
    ensures -1 <= d <= 1
  {
    QUAD_TABLE[4 * from + to]
  }

  /** How far round its four-state cycle the Gray code stands. */
  function Phase(s: Lines): nat {
    if s == 0 then 0 else if s == 2 then 1 else if s == 3 then 2 else 3
  }

  /** A one-line move is a quarter turn either way; a two-line jump is half a turn and decodes to nothing. */
  lemma DirIsPhaseChange(from: Lines, to: Lines)
    ensures from != to && Dir(from, to) == 0 ==> (Phase(to) - Phase(from) + 2) % 4 == 0
    ensures from == to || Dir(from, to) != 0 ==> (Phase(to) - Phase(from) - Dir(from, to)) % 4 == 0
    ensures Dir(from, to) == -Dir(to, from) && Dir(from, from) == 0
  {
  }

  /** Line A of a state, and line B. */
  predicate A(s: Lines) {
    s / 2 == 1
  }

  predicate B(s: Lines) {
    s % 2 == 1
  }

  /** Up when A changes to differ from B or B changes to agree with A, down the other way round, nothing otherwise. */
  lemma DirByLines(from: Lines, to: Lines)
    ensures A(from) != A(to) && B(from) == B(to) ==> Dir(from, to) == if A(to) != B(to) then 1 else -1
    ensures A(from) == A(to) && B(from) != B(to) ==> Dir(from, to) == if A(to) == B(to) then 1 else -1
    ensures (A(from) != A(to)) == (B(from) != B(to)) ==> Dir(from, to) == 0
  {
  }

  /** Steps decoded along a run of line readings. */
  function Decoded(from: Lines, path: seq<Lines>): int
    decreases |path|
  {
    if path == [] then 0 else Dir(from, path[0]) + Decoded(path[0], path[1..])
  }

  function Skips(from: Lines, path: seq<Lines>): nat
    decreases |path|
  {
    if path == [] then 0
    else (if path[0] != from && Dir(from, path[0]) == 0 then 1 else 0) + Skips(path[0], path[1..])
  }

  function Last(from: Lines, path: seq<Lines>): Lines {
    if path == [] then from else path[|path| - 1]
  }

  /** The steps counted are the phase turned through, modulo a turn, each skipped state standing for half a turn. */
  lemma {:induction false} DecodedIsPhase(from: Lines, path: seq<Lines>)
    ensures (Phase(Last(from, path)) - Phase(from) + 2 * Skips(from, path) - Decoded(from, path)) % 4 == 0
    decreases |path|
  {
    hide Dir;
    hide Phase;
    if path != [] {
      DirIsPhaseChange(from, path[0]);
      DecodedIsPhase(path[0], path[1..]);
    }
  }

  /** Contacts bouncing between two states one line apart come to the plain difference of the two. */
  lemma {:induction false} BounceNetsOut(a: Lines, b: Lines, from: Lines, path: seq<Lines>)
    requires from in {a, b} && forall k | 0 <= k < |path| :: path[k] in {a, b}
    requires Dir(a, b) != 0
    ensures Decoded(from, path) == Dir(from, Last(from, path)) && Skips(from, path) == 0
    decreases |path|
  {
    hide Dir;
    DirIsPhaseChange(a, b);
    DirIsPhaseChange(b, a);
    if path != [] {
      assert path[0] in {a, b};
      BounceNetsOut(a, b, path[0], path[1..]);
    }
  }

  lemma {:induction false} DecodedSnoc(from: Lines, path: seq<Lines>, s: Lines)
    ensures Decoded(from, path + [s]) == Decoded(from, path) + Dir(Last(from, path), s)
    ensures Skips(from, path + [s]) ==
            Skips(from, path) + if s != Last(from, path) && Dir(Last(from, path), s) == 0 then 1 else 0
    decreases |path|
  {
    if path != [] {
      DecodedSnoc(path[0], path[1..], s);
      assert (path + [s])[1..] == path[1..] + [s];
    }
  }

  /** A detent counts when four steps one way have come together, not before. */
  function Detents(sub: int): int {
    if sub == STEPS_PER_DETENT then 1 else if sub == -STEPS_PER_DETENT then -1 else 0
  }

  function Pending(sub: int): int {
    sub - STEPS_PER_DETENT * Detents(sub)
  }

  lemma NoDetent(sub: int)
    requires -STEPS_PER_DETENT < sub < STEPS_PER_DETENT
    ensures Pending(sub) == sub && Detents(sub) == 0
  {
  }

  datatype Event = Event(delta: int, pressed: bool, buttonEdge: bool, position: int)

  function Clamped(delta: int): (c: int)
    ensures -127 <= c <= 127 && (c == delta <==> -127 <= delta <= 127)
    ensures (delta > 127 ==> c == 127) && (delta < -127 ==> c == -127)
    ensures c > 0 <==> delta > 0
    ensures c < 0 <==> delta < 0
  {
    if delta > 127 then 127 else if delta < -127 then -127 else delta
  }

  /** The levels that the button reports among `events` carry. */
  function EdgeLevels(events: seq<Event>): seq<bool> {
    if events == [] then []
    else (if events[0].buttonEdge then [events[0].pressed] else []) + EdgeLevels(events[1..])
  }

  /** A turn report carries no level; a button report after it carries one. */
  lemma OneLevel(events: seq<Event>, edge: Event)
    requires edge.buttonEdge && |events| <= 1 && (events != [] ==> !events[0].buttonEdge)
    ensures EdgeLevels(events) == [] && EdgeLevels(events + [edge]) == [edge.pressed]
  {
    assert EdgeLevels([edge]) == [edge.pressed];
    if events != [] {
      assert (events + [edge])[1..] == [edge];
    } else {
      assert events + [edge] == [edge];
    }
  }

  /** `levels` turn and turn about, from the opposite of `first` on, and the last of them is `now`. */
  predicate Alternate(first: bool, levels: seq<bool>, now: bool) {
    && (forall k :: 0 <= k < |levels| ==> levels[k] == if k % 2 == 0 then !first else first)
    && now == if levels == [] then first else levels[|levels| - 1]
  }

  lemma AlternateStarts(first: bool)
    ensures Alternate(first, [], first)
  {
  }

  lemma AlternateGrows(first: bool, levels: seq<bool>, was: bool, now: bool)
    requires Alternate(first, levels, was)
    ensures Alternate(first, if now == was then levels else levels + [now], now)
  {
    if levels != [] {
      assert levels[|levels| - 1] == if (|levels| - 1) % 2 == 0 then !first else first;
    }
  }

  function Sum(s: seq<int>): int {
    if s == [] then 0 else s[0] + Sum(s[1..])
  }

  lemma {:induction false} SumSnoc(s: seq<int>, x: int)
    ensures Sum(s + [x]) == Sum(s) + x
  {
    if s != [] {
      SumSnoc(s[1..], x);
      assert (s + [x])[1..] == s[1..] + [x];
    }
  }

  lemma CountWraps(n: nat)
    ensures (n % TWO32 + 1) % TWO32 == (n + 1) % TWO32
  {
  }

  /** The phase turned through since `first`, but for `drift`, is the part detent and half a turn for each error,
      modulo a turn. */
  predicate InPhase(first: Lines, state: Lines, drift: int, errors: nat, sub: int) {
    (Phase(state) - Phase(first) - drift + 2 * errors - SIGN * sub) % STEPS_PER_DETENT == 0
  }

  /** One decoded move keeps the relation, whether it counts a step or an error. */
  lemma MoveKeepsPhase(first: Lines, from: Lines, to: Lines, drift: int, errors: nat, sub: int)
    requires from != to && InPhase(first, from, drift, errors, sub) && -STEPS_PER_DETENT < sub < STEPS_PER_DETENT
    ensures InPhase(first, to, drift, if Dir(from, to) == 0 then (errors + 1) % TWO32 else errors,
                    Pending(sub + SIGN * Dir(from, to)))
  {
    DirIsPhaseChange(from, to);
    HalfTurns(errors + 1);
    hide Dir;
    hide Phase;
  }

  /** Position and part detent are the steps decoded along `path` and `before` it. */
  predicate Counts(position: int, sub: int, before: int, origin: Lines, path: seq<Lines>) {
    STEPS_PER_DETENT * position + sub == SIGN * (before + Decoded(origin, path))
  }

  /** So are the errors, in 32 bits, the states skipped. */
  predicate Skipped(errors: nat, before: nat, origin: Lines, path: seq<Lines>) {
    errors == (before + Skips(origin, path)) % TWO32
  }

  lemma MoveKeepsCounts(position: int, sub: int, before: int, origin: Lines, path: seq<Lines>, to: Lines, after: int,
                        rest: int)
    requires Counts(position, sub, before, origin, path)
    requires STEPS_PER_DETENT * after + rest == STEPS_PER_DETENT * position + sub + SIGN * Dir(Last(origin, path), to)
    ensures Counts(after, rest, before, origin, path + [to])
  {
    hide Dir;
    DecodedSnoc(origin, path, to);
  }

  lemma MoveKeepsSkipped(errors: nat, before: nat, origin: Lines, path: seq<Lines>, to: Lines)
    requires Skipped(errors, before, origin, path) && to != Last(origin, path)
    ensures Skipped(if Dir(Last(origin, path), to) == 0 then (errors + 1) % TWO32 else errors, before,
                    origin, path + [to])
  {
    hide Dir;
    DecodedSnoc(origin, path, to);
    CountWraps(before + Skips(origin, path));
  }

  /** Setting the state to `to` starts a new path, and moves the drift by the phase it jumps. */
  lemma JumpKeeps(first: Lines, from: Lines, to: Lines, drift: int, errors: nat, sub: int, position: int,
                  steps: int, skips: nat, origin: Lines, path: seq<Lines>)
    requires InPhase(first, from, drift, errors, sub)
    requires Counts(position, sub, steps, origin, path) && Skipped(errors, skips, origin, path)
    ensures InPhase(first, to, drift + Phase(to) - Phase(from), errors, sub)
    ensures Counts(position, sub, steps + Decoded(origin, path), to, [])
    ensures Skipped(errors, skips + Skips(origin, path), to, []) && Last(to, []) == to
  {
    hide Phase;
  }

  lemma HalfTurns(n: nat)
    ensures (2 * (n % TWO32) - 2 * n) % 4 == 0
  {
    var q, r := n / TWO32, n % TWO32;
    assert n == TWO32 * q + r;
    assert 2 * r - 2 * n == 4 * (-0x8000_0000 * q);
  }

  class Decoder {
    var state: Lines
    var sub: int
    var position: int
    var queueDelta: int
    var pollDelta: int
    var errors: nat
    var pressed: bool
    /** The state the decoder was last set to without decoding, and the readings decoded since. */
    ghost var origin: Lines
    ghost var path: seq<Lines>
    /** The state the decoder was made with, and the phase by which later settings moved it. */
    ghost var first: Lines
    ghost var drift: int
    /** Steps and skips from before that, and the position then. */
    ghost var stepsBefore: int
    ghost var skipsBefore: nat
    /** What each reader has been given. */
    ghost var taken: seq<int>
    ghost var polled: seq<int>
    /** The button level last set without a report, and the levels reported since. */
    ghost var level: bool
    ghost var levels: seq<bool>

    ghost predicate Valid()
      reads this
    {
      && -STEPS_PER_DETENT < sub < STEPS_PER_DETENT
      && state == Last(origin, path)
      && Counts(position, sub, stepsBefore, origin, path)
      && Skipped(errors, skipsBefore, origin, path)
      && position == Sum(taken) + queueDelta
      && position == Sum(polled) + pollDelta
      && InPhase(first, state, drift, errors, sub)
      && Alternate(level, levels, pressed)
    }

    constructor (lines: Lines, button: bool)
      ensures Valid() && state == origin == first == lines && drift == 0 && path == [] && taken == polled == []
      ensures level == button && levels == []
      ensures position == 0 && sub == 0 && errors == 0 && stepsBefore == 0 && skipsBefore == 0
    {
      state, sub, position, queueDelta, pollDelta, errors, pressed := lines, 0, 0, 0, 0, 0, button;
      first, drift := lines, 0;
      origin, path, stepsBefore, skipsBefore, taken, polled := lines, [], 0, 0, [], [];
      level, levels := button, [];
    }

    method CarryUp()
      requires sub < 2 * STEPS_PER_DETENT
      modifies `sub, `position, `queueDelta, `pollDelta
      ensures sub < STEPS_PER_DETENT && (if old(sub) >= STEPS_PER_DETENT then sub >= 0 else sub == old(sub))
      ensures STEPS_PER_DETENT * position + sub == old(STEPS_PER_DETENT * position + sub)
      ensures position - old(position) == queueDelta - old(queueDelta) == pollDelta - old(pollDelta)
    {
      while sub >= STEPS_PER_DETENT
        invariant sub == old(sub) || (sub >= 0 && old(sub) >= STEPS_PER_DETENT)
        invariant STEPS_PER_DETENT * position + sub == old(STEPS_PER_DETENT * position + sub)
        invariant position - old(position) == queueDelta - old(queueDelta) == pollDelta - old(pollDelta)
      {
        sub := sub - STEPS_PER_DETENT;
        position, queueDelta, pollDelta := position + 1, queueDelta + 1, pollDelta + 1;
      }
    }

    method CarryDown()
      requires sub < STEPS_PER_DETENT
      modifies `sub, `position, `queueDelta, `pollDelta
      ensures -STEPS_PER_DETENT < sub < STEPS_PER_DETENT
      ensures if old(sub) <= -STEPS_PER_DETENT then sub <= 0 else sub == old(sub)
      ensures STEPS_PER_DETENT * position + sub == old(STEPS_PER_DETENT * position + sub)
      ensures position - old(position) == queueDelta - old(queueDelta) == pollDelta - old(pollDelta)
    {
      while sub <= -STEPS_PER_DETENT
        invariant sub < STEPS_PER_DETENT
        invariant sub == old(sub) || (sub <= 0 && old(sub) <= -STEPS_PER_DETENT)
        invariant STEPS_PER_DETENT * position + sub == old(STEPS_PER_DETENT * position + sub)
        invariant position - old(position) == queueDelta - old(queueDelta) == pollDelta - old(pollDelta)
      {
        sub := sub + STEPS_PER_DETENT;
        position, queueDelta, pollDelta := position - 1, queueDelta - 1, pollDelta - 1;
      }
    }

    /** One decoded step into the part detent, with whole detents carried out to the counters. */
    method Add(step: int)
      requires -STEPS_PER_DETENT < sub < STEPS_PER_DETENT && -1 <= step <= 1
      modifies `sub, `position, `queueDelta, `pollDelta
      ensures -STEPS_PER_DETENT < sub < STEPS_PER_DETENT
      ensures sub == Pending(old(sub) + step) && position == old(position) + Detents(old(sub) + step)
      ensures STEPS_PER_DETENT * position + sub == old(STEPS_PER_DETENT * position + sub) + step
      ensures position != old(position) ==> sub == 0
      ensures position - old(position) == queueDelta - old(queueDelta) == pollDelta - old(pollDelta)
    {
      sub := sub + step;
      CarryUp();
      CarryDown();
    }

    /** The interrupt handler's quadrature branch, reading `lines`. */
    method Interrupt(lines: Lines)
      requires Valid()
      modifies `state, `sub, `position, `queueDelta, `pollDelta, `errors, `path
      ensures Valid() && state == lines
      ensures path == if lines == old(state) then old(path) else old(path) + [lines]
      ensures var s := old(sub) + SIGN * Dir(old(state), lines);
              sub == Pending(s) && position == old(position) + Detents(s)
      ensures STEPS_PER_DETENT * position + sub ==
              old(STEPS_PER_DETENT * position + sub) + SIGN * Dir(old(state), lines)
      ensures position != old(position) ==> sub == 0
      ensures position - old(position) == queueDelta - old(queueDelta) == pollDelta - old(pollDelta)
    {
      hide Dir;
      hide InPhase;
      hide Counts;
      hide Skipped;
      hide Sum;
      hide Alternate;
      hide Pending;
      hide Detents;
      if lines == state {
        DirIsPhaseChange(lines, lines);
        NoDetent(sub);
        return;
      }
      var dir := Dir(state, lines);
      MoveKeepsPhase(first, state, lines, drift, errors, sub);
      MoveKeepsSkipped(errors, skipsBefore, origin, path, lines);
      if dir == 0 {
        errors := (errors + 1) % TWO32;
      }
      ghost var position0, sub0 := position, sub;
      Add(dir * SIGN);
      MoveKeepsCounts(position0, sub0, stepsBefore, origin, path, lines, position, sub);
      state, path := lines, path + [lines];
    }

    /** The task's first act sets the state to the lines as they stand, decoding nothing. */
    method TaskStart(lines: Lines, button: bool)
      requires Valid()
      modifies `state, `pressed, `origin, `path, `drift, `stepsBefore, `skipsBefore, `level, `levels
      ensures Valid() && state == lines && origin == lines && path == [] && level == button && levels == []
      ensures stepsBefore == old(stepsBefore + Decoded(origin, path))
      ensures skipsBefore == old(skipsBefore + Skips(origin, path))
      ensures drift == old(drift) + Phase(lines) - Phase(old(state))
    {
      hide Sum;
      hide InPhase;
      hide Counts;
      hide Skipped;
      hide Phase;
      hide Decoded;
      hide Skips;
      hide Last;
      hide Alternate;
      JumpKeeps(first, state, lines, drift, errors, sub, position, stepsBefore, skipsBefore, origin, path);
      AlternateStarts(button);
      ghost var steps, skips := stepsBefore + Decoded(origin, path), skipsBefore + Skips(origin, path);
      drift := drift + Phase(lines) - Phase(state);
      state, pressed, origin, path, stepsBefore, skipsBefore := lines, button, lines, [], steps, skips;
      level, levels := button, [];
    }

    method TakeDelta() returns (delta: int)
      requires Valid()
      modifies `pollDelta, `polled
      ensures Valid() && pollDelta == 0 && polled == old(polled) + [delta]
      ensures Sum(polled) == position
    {
      delta, pollDelta := pollDelta, 0;
      SumSnoc(polled, delta);
      polled := polled + [delta];
    }

    /** One wake of the task: the detents since the last wake, then the button if it moved. */
    method TaskWake(button: bool) returns (events: seq<Event>)
      requires Valid()
      modifies `queueDelta, `taken, `pressed, `levels
      ensures Valid() && queueDelta == 0 && Sum(taken) == position && pressed == button
      ensures taken == old(taken) + [old(queueDelta)]
      ensures |events| == (if old(queueDelta) == 0 then 0 else 1) + if old(pressed) == button then 0 else 1
      ensures old(queueDelta) != 0 ==> events[0] == Event(Clamped(old(queueDelta)), old(pressed), false, position)
      ensures old(pressed) != button ==> events[|events| - 1] == Event(0, button, true, position)
      ensures levels == old(levels) + EdgeLevels(events)
    {
      hide Alternate;
      hide InPhase;
      hide Counts;
      hide Skipped;
      hide Phase;
      hide Decoded;
      hide Last;
      var delta := queueDelta;
      queueDelta := 0;
      SumSnoc(taken, delta);
      taken := taken + [delta];
      events := [];
      if delta != 0 {
        var clamped := if delta > 127 then 127 else if delta < -127 then -127 else delta;
        events := [Event(clamped, pressed, false, position)];
      }
      AlternateGrows(level, levels, pressed, button);
      Units(levels);
      OneLevel(events, Event(0, button, true, position));
      hide *;
      if button != pressed {
        pressed := button;
        events := events + [Event(0, pressed, true, position)];
        levels := levels + [button];
      }
    }

    /** The button reports alternate, the first against the level the task started with, the last with the level now. */
    lemma ButtonReportsAlternate()
      requires Valid()
      ensures forall k, j :: 0 <= j < |levels| && k == j + 1 < |levels| ==> levels[k] != levels[j]
      ensures levels != [] ==> levels[0] != level && levels[|levels| - 1] == pressed
      ensures levels == [] ==> pressed == level
    {
      hide Phase;
      hide Decoded;
      hide Skips;
      hide Sum;
      hide InPhase;
    }

    /**
     * After any run of interrupts, starts and readings, the part detent and the error count name the phase the
     * shaft has turned since power-on if and only if what the starts set it by comes to whole turns.
     */
    lemma PositionTracksPhase()
      requires Valid()
      ensures (Phase(state) - Phase(first) + 2 * errors - (STEPS_PER_DETENT * position + sub)) % 4 == 0 <==>
              drift % 4 == 0
    {
      hide Phase;
      hide Decoded;
      hide Skips;
      hide Sum;
    }
  }

  /** A start moves the phase by whole turns only when it finds the lines as they were. */
  lemma StartKeepsPhase(was: Lines, lines: Lines)
    ensures (Phase(lines) - Phase(was)) % 4 == 0 <==> lines == was
  {
  }
}
