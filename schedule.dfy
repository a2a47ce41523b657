/** The black-frame-insertion flip schedule as values: the dwell rule, the
    drift correction that snaps the last-flip timestamp forward on a fixed
    grid, one vblank tick, and a run of ticks. Time is a count of
    nanoseconds; the wall clock ticks in units of `CLOCK_UNIT`. The
    controller class in module Bfi is proved against these functions. */
module Schedule {

  datatype Option<T> = None | Some(value: T)

  /** The blink half-period in nanoseconds: (1000 / 239.1) ms, truncated to
      whole nanoseconds when it is converted to an unsigned integer. */
  const INTERVAL: nat := 4182350

  /** The resolution of the wall clock: on Windows a `SystemTime` counts
      100-ns units, so every clock reading is a multiple of it. */
  const CLOCK_UNIT: nat := 100

  /** How far adding `INTERVAL` to a `SystemTime`, or subtracting it, moves
      the time: the duration is converted to whole clock units and the
      remainder dropped, so 4182300 ns, 50 ns less than `INTERVAL`. The
      elapsed-time tests compare against the full `INTERVAL`. */
  const STEP: nat := 4182300

  /** `STEP` is `INTERVAL` truncated to whole clock units. */
  lemma StepTruncatesInterval()
    ensures STEP == INTERVAL / CLOCK_UNIT * CLOCK_UNIT
    ensures STEP <= INTERVAL < STEP + CLOCK_UNIT
  {
  }

  /** Alpha values handed to the layered window. */
  const ALPHA_TRANSPARENT: int := 0
  const ALPHA_OPAQUE: int := 255

  /** The two loop-carried variables of the vblank loop. */
  datatype State = State(lastFlip: nat, transparent: bool)

  /** The alpha that shows a blink state. */
  function Alpha(transparent: bool): int
  {
    if transparent then ALPHA_TRANSPARENT else ALPHA_OPAQUE
  }

  /** The flip decision: the elapsed time since the last flip has reached one
      interval while transparent, three intervals while opaque. */
  predicate FlipDue(s: State, now: nat)
    requires s.lastFlip <= now
  {
    if s.transparent then now - s.lastFlip >= INTERVAL
    else now - s.lastFlip >= INTERVAL + INTERVAL + INTERVAL
  }

  /** How many times drift correction advances `lastFlip` by one `STEP`
      before `lastFlip < now - STEP` fails: at least enough to come within
      one step of `now`, and never past `now` once a step is taken. */
  function Steps(lastFlip: nat, now: nat): (k: nat)
    decreases now - lastFlip
    ensures now - STEP <= lastFlip + k * STEP
    ensures k > 0 ==> lastFlip + k * STEP < now
  {
    if lastFlip < now - STEP then 1 + Steps(lastFlip + STEP, now) else 0
  }

  /** The timestamp drift correction leaves behind. */
  function Snap(lastFlip: nat, now: nat): nat
  {
    lastFlip + Steps(lastFlip, now) * STEP
  }

  /** The two properties of Steps pin it down: no other step count reaches
      within one step of `now` without overshooting it. */
  lemma StepsUnique(lastFlip: nat, now: nat, k: nat)
    requires now - STEP <= lastFlip + k * STEP
    requires k > 0 ==> lastFlip + k * STEP < now
    ensures k == Steps(lastFlip, now)
  {
  }

  /** A timestamp lies on the grid of whole steps counted from `start`. */
  predicate OnGrid(start: nat, t: nat)
  {
    start <= t && (t - start) % STEP == 0
  }

  /** Advancing a grid timestamp by whole steps stays on the grid. */
  lemma OnGridAdvance(start: nat, t: nat, k: nat)
    requires OnGrid(start, t)
    ensures OnGrid(start, t + k * STEP)
  {
  }

  /** One vblank tick at wall-clock time `now`: the new state, and the alpha
      applied to the overlay when the tick flips. */
  function Step(s: State, now: nat): (r: (State, Option<int>))
    requires s.lastFlip <= now
    ensures r.1.Some? <==>
      (if s.transparent then now - s.lastFlip >= INTERVAL
       else now - s.lastFlip >= 3 * INTERVAL)
    ensures r.1.None? ==> r.0 == s
    ensures r.1.Some? ==>
      r.0.transparent == !s.transparent &&
      r.1.value == (if r.0.transparent then 0 else 255) &&
      0 <= r.1.value <= 255
    ensures s.lastFlip <= r.0.lastFlip <= now
    ensures r.1.Some? ==> s.lastFlip < r.0.lastFlip < now
    ensures r.1.Some? ==> now - STEP <= r.0.lastFlip
  {
    if FlipDue(s, now) then
      var t := State(Snap(s.lastFlip, now), !s.transparent);
      (t, Some(Alpha(t.transparent)))
    else
      (s, None)
  }

  /** A tick moves the last-flip timestamp by whole steps: a timestamp on
      the grid counted from `start` stays on it. */
  lemma StepOnGrid(start: nat, s: State, now: nat)
    requires s.lastFlip <= now
    requires OnGrid(start, s.lastFlip)
    ensures OnGrid(start, Step(s, now).0.lastFlip)
  {
    OnGridAdvance(start, s.lastFlip, Steps(s.lastFlip, now));
  }

  /** A run of ticks is well-defined from `s` when no clock reading is
      before the last-flip timestamp left by the ticks before it, which is
      what the `duration_since(...).unwrap()` of each tick needs. */
  predicate CanRun(s: State, ticks: seq<nat>)
    decreases |ticks|, 0
  {
    ticks == [] ||
    (CanRun(s, ticks[..|ticks| - 1]) &&
     Run(s, ticks[..|ticks| - 1]).0.lastFlip <= ticks[|ticks| - 1])
  }

  /** The alphas emitted by one tick. */
  function Emitted(a: Option<int>): seq<int>
  {
    if a.Some? then [a.value] else []
  }

  /** The vblank loop over a sequence of clock readings: the final state and
      the alphas applied, in order. The last-flip timestamp never passes the
      latest clock reading, and it never decreases. */
  function Run(s: State, ticks: seq<nat>): (r: (State, seq<int>))
    requires CanRun(s, ticks)
    ensures s.lastFlip <= r.0.lastFlip
    ensures |ticks| > 0 ==> r.0.lastFlip <= ticks[|ticks| - 1]
    ensures |ticks| == 0 ==> r == (s, [])
    decreases |ticks|, 1
  {
    if ticks == [] then (s, [])
    else
      var (p, alphas) := Run(s, ticks[..|ticks| - 1]);
      var (t, a) := Step(p, ticks[|ticks| - 1]);
      (t, alphas + Emitted(a))
  }

  /** Every prefix of a run that can be taken can be taken. */
  lemma {:induction false} CanRunPrefix(s: State, ticks: seq<nat>, k: nat)
    requires CanRun(s, ticks)
    requires k <= |ticks|
    ensures CanRun(s, ticks[..k])
    decreases |ticks|
  {
    if k < |ticks| {
      var init := ticks[..|ticks| - 1];
      assert init[..k] == ticks[..k];
      CanRunPrefix(s, init, k);
    } else {
      assert ticks[..k] == ticks;
    }
  }

  /** Iteration n of a run that can be taken: its reading is not before the
      timestamp the iterations before it leave, and it is one more step
      after them. */
  lemma CanRunNext(s: State, ticks: seq<nat>, n: nat)
    requires CanRun(s, ticks)
    requires n < |ticks|
    ensures CanRun(s, ticks[..n])
    ensures CanRun(s, ticks[..n + 1])
    ensures Run(s, ticks[..n]).0.lastFlip <= ticks[n]
    ensures Run(s, ticks[..n + 1]) ==
      (Step(Run(s, ticks[..n]).0, ticks[n]).0,
       Run(s, ticks[..n]).1 + Emitted(Step(Run(s, ticks[..n]).0, ticks[n]).1))
  {
    CanRunPrefix(s, ticks, n + 1);
    var next := ticks[..n + 1];
    assert next[..|next| - 1] == ticks[..n];
  }

  /** Running `ticks` from `s` can be done, ends in `t` and emits `alphas`. */
  predicate Reached(s: State, ticks: seq<nat>, t: State, alphas: seq<int>)
  {
    CanRun(s, ticks) && Run(s, ticks).0 == t && Run(s, ticks).1 == alphas
  }

  /** One more iteration of the vblank loop: if the first n readings reach
      `p` having emitted `alphas`, then reading n is not before `p`'s
      timestamp, and the first n + 1 readings reach `Step(p, ticks[n])` with
      that step's alpha appended. */
  lemma RunStep(s: State, ticks: seq<nat>, n: nat, p: State, alphas: seq<int>)
    requires CanRun(s, ticks)
    requires n < |ticks|
    requires Reached(s, ticks[..n], p, alphas)
    ensures p.lastFlip <= ticks[n]
    ensures Reached(s, ticks[..n + 1], Step(p, ticks[n]).0, alphas + Emitted(Step(p, ticks[n]).1))
  {
    CanRunNext(s, ticks, n);
  }

  /** Clock readings never go backwards. */
  predicate Monotone(ticks: seq<nat>)
  {
    forall i, j :: 0 <= i < j < |ticks| ==> ticks[i] <= ticks[j]
  }

  /** Monotone clock readings that start no earlier than the last flip never
      reach the panicking `unwrap`: every reading is at or after the
      timestamp the ticks before it leave. */
  lemma {:induction false} MonotoneCanRun(s: State, ticks: seq<nat>)
    requires Monotone(ticks)
    requires |ticks| > 0 ==> s.lastFlip <= ticks[0]
    ensures CanRun(s, ticks)
    decreases |ticks|
  {
    if ticks != [] {
      var init := ticks[..|ticks| - 1];
      assert Monotone(init) by {
        forall i, j | 0 <= i < j < |init| ensures init[i] <= init[j] {
          assert init[i] == ticks[i] && init[j] == ticks[j];
        }
      }
      assert |init| > 0 ==> init[0] == ticks[0];
      MonotoneCanRun(s, init);
      if |init| > 0 {
        assert init[|init| - 1] == ticks[|ticks| - 2];
      }
    }
  }

  /** The schedule stays phase-locked: a run that starts on the grid counted
      from `start` ends on it. */
  lemma {:induction false} RunPhaseLocked(start: nat, s: State, ticks: seq<nat>)
    requires CanRun(s, ticks)
    requires OnGrid(start, s.lastFlip)
    ensures OnGrid(start, Run(s, ticks).0.lastFlip)
    decreases |ticks|
  {
    if ticks != [] {
      var init := ticks[..|ticks| - 1];
      RunPhaseLocked(start, s, init);
      StepOnGrid(start, Run(s, init).0, ticks[|ticks| - 1]);
    }
  }

  /** The alphas in `alphas` alternate, starting with the one that shows
      `from` toggled once, and `t` is `from` toggled once per alpha. */
  predicate Alternating(from: bool, alphas: seq<int>, t: bool)
  {
    (forall i :: 0 <= i < |alphas| ==> alphas[i] == Alpha(if i % 2 == 0 then !from else from)) &&
    t == (if |alphas| % 2 == 0 then from else !from)
  }

  /** One tick keeps the emitted alphas alternating. */
  lemma StepAlternates(from: bool, p: State, alphas: seq<int>, now: nat)
    requires p.lastFlip <= now
    requires Alternating(from, alphas, p.transparent)
    ensures Alternating(from, alphas + Emitted(Step(p, now).1), Step(p, now).0.transparent)
  {
    var (t, a) := Step(p, now);
    if a.Some? {
      var all := alphas + [a.value];
      forall i | 0 <= i < |all|
        ensures all[i] == Alpha(if i % 2 == 0 then !from else from)
      {
        if i < |alphas| {
          assert all[i] == alphas[i];
        }
      }
    } else {
      assert alphas + [] == alphas;
    }
  }

  /** Flips alternate: the i-th alpha of a run shows the state toggled i + 1
      times, and the final state is toggled once per emitted alpha. */
  lemma {:induction false} RunAlternates(s: State, ticks: seq<nat>)
    requires CanRun(s, ticks)
    ensures Alternating(s.transparent, Run(s, ticks).1, Run(s, ticks).0.transparent)
    decreases |ticks|
  {
    if ticks != [] {
      var init := ticks[..|ticks| - 1];
      RunAlternates(s, init);
      var r := Run(s, init);
      StepAlternates(s.transparent, r.0, r.1, ticks[|ticks| - 1]);
    }
  }

  /** The worked 1:3 scenario, tick by tick: starting opaque at t = 0, a tick
      at 4 ms does not flip, one at 13 ms flips to alpha 0 and one at 17.5 ms
      flips back to alpha 255. */
  lemma ScenarioTicks()
    ensures Step(State(0, false), 4_000_000) == (State(0, false), None)
    ensures Step(State(0, false), 13_000_000) == (State(12_546_900, true), Some(0))
    ensures Step(State(12_546_900, true), 17_500_000) == (State(16_729_200, false), Some(255))
  {
    StepsUnique(0, 13_000_000, 3);
    StepsUnique(12_546_900, 17_500_000, 1);
  }

  /** The same scenario as one run of the vblank loop. */
  lemma Scenario()
    ensures CanRun(State(0, false), [4_000_000, 13_000_000, 17_500_000])
    ensures Run(State(0, false), [4_000_000, 13_000_000, 17_500_000]) ==
      (State(16_729_200, false), [0, 255])
  {
    ScenarioTicks();
    var s0, s1, s2 := State(0, false), State(12_546_900, true), State(16_729_200, false);
    var t3: seq<nat> := [4_000_000, 13_000_000, 17_500_000];
    MonotoneCanRun(s0, t3);
    var t2, t1 := t3[..2], t3[..1];
    assert t2[..1] == t1 && t1[..0] == [];
    assert Run(s0, t1).0 == s0 && Run(s0, t1).1 == [];
    assert Run(s0, t2).0 == s1 && Run(s0, t2).1 == [0];
    assert Run(s0, t3).0 == s2 && Run(s0, t3).1 == [0, 255];
  }

  /** A stall of ten intervals between two ticks collapses into one flip, and
      the timestamp is snapped to within one step of `now`. */
  lemma StallCollapses(s: State, now: nat)
    requires s.lastFlip + 10 * INTERVAL <= now
    ensures Step(s, now).1.Some?
    ensures Step(s, now).0.transparent == !s.transparent
    ensures now - STEP <= Step(s, now).0.lastFlip < now
  {
  }

  /** After a flip the last-flip timestamp lags `now` by at most one step,
      which is strictly less than one interval, so a second tick at the same
      clock reading never flips again. */
  lemma SameReadingFlipsOnce(s: State, now: nat)
    requires s.lastFlip <= now
    ensures Step(s, now).1.Some? ==> now - Step(s, now).0.lastFlip <= STEP < INTERVAL
    ensures Step(Step(s, now).0, now) == (Step(s, now).0, None)
  {
  }

  /** The transparent phase is measured from the snapped timestamp, not from
      the tick that flipped: an opaque tick that lands exactly on a grid point
      leaves the timestamp one step behind it, and a tick one clock unit later
      already flips back. */
  lemma TransparentPhaseCanBeShort()
    ensures Step(State(0, false), 4 * STEP) == (State(3 * STEP, true), Some(0))
    ensures Step(State(3 * STEP, true), 4 * STEP + CLOCK_UNIT) == (State(4 * STEP, false), Some(255))
  {
  }
}
