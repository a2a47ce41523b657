/** The timing controller of the vblank loop: the two loop-carried variables
    `last_flip` and `transparent` as fields of an object, one method per loop
    iteration, and the loop itself running until the quit flag is seen. Each
    method is proved against the schedule functions of module Schedule. */
module Bfi {
  import opened Schedule

  class BfiController {
    /** Time of the last flip, on the grid of whole steps from `start`. */
    var lastFlip: nat
    /** Whether the overlay is currently transparent. */
    var transparent: bool
    /** The clock reading taken when the controller was set up. */
    ghost const start: nat

    /** The controller's invariant: the schedule is phase-locked to `start`. */
    ghost predicate Valid()
      reads this
    {
      OnGrid(start, lastFlip)
    }

    /** The abstract state the schedule functions speak about. */
    function Current(): State
      reads this
    {
      State(lastFlip, transparent)
    }

    /** Set up at clock reading `now`, opaque. */
    constructor (now: nat)
      ensures Valid()
      ensures start == now && lastFlip == now && !transparent
    {
      start := now;
      lastFlip := now;
      transparent := false;
    }

    /** One vblank tick at clock reading `now`: decide whether to flip; on a
        flip, snap `lastFlip` forward in whole steps until it is within one
        step of `now`, toggle the state, and return the alpha to apply. A
        tick that does not flip returns None and changes nothing. The snap
        works on `SystemTime`s, so it moves by `STEP`, the interval truncated
        to the clock's resolution. */
    method Tick(now: nat) returns (alpha: Option<int>)
      requires Valid()
      requires lastFlip <= now
      modifies this
      ensures Valid()
      ensures Current() == Step(old(Current()), now).0
      ensures alpha == Step(old(Current()), now).1
      ensures alpha.Some? <==>
        (if old(transparent) then now - old(lastFlip) >= INTERVAL
         else now - old(lastFlip) >= 3 * INTERVAL)
      ensures alpha.None? ==> lastFlip == old(lastFlip) && transparent == old(transparent)
      ensures alpha.Some? ==>
        transparent == !old(transparent) &&
        alpha == Some(if transparent then 0 else 255) &&
        old(lastFlip) < lastFlip < now && now - STEP <= lastFlip
    {
      var flip := if transparent then now - lastFlip >= INTERVAL
                  else now - lastFlip >= INTERVAL + INTERVAL + INTERVAL;
      if flip {
        while lastFlip < now - STEP
          invariant old(lastFlip) <= lastFlip <= now
          invariant transparent == old(transparent)
          invariant OnGrid(start, lastFlip)
          invariant Snap(lastFlip, now) == Snap(old(lastFlip), now)
          decreases now - lastFlip
        {
          OnGridAdvance(start, lastFlip, 1);
          lastFlip := lastFlip + STEP;
        }
        assert Steps(lastFlip, now) == 0;
        transparent := !transparent;
        alpha := Some(if transparent then 0 else 255);
      } else {
        alpha := None;
      }
    }

    /** The vblank loop: `clock[i]` is the clock reading of iteration i and
        `quit[i]` the quit flag checked before it. The loop runs until the
        flag is first seen set, and returns the alphas applied, in order. */
    method RunUntilQuit(clock: seq<nat>, quit: seq<bool>) returns (n: nat, alphas: seq<int>)
      requires Valid()
      requires |quit| == |clock| + 1 && quit[|clock|]
      requires CanRun(Current(), clock)
      modifies this
      ensures Valid()
      ensures n <= |clock| && quit[n] && forall i :: 0 <= i < n ==> !quit[i]
      ensures CanRun(old(Current()), clock[..n])
      ensures Current() == Run(old(Current()), clock[..n]).0
      ensures alphas == Run(old(Current()), clock[..n]).1
    {
      ghost var s0 := Current();
      n, alphas := 0, [];
      CanRunPrefix(s0, clock, 0);
      while !quit[n]
        invariant n <= |clock|
        invariant forall i :: 0 <= i < n ==> !quit[i]
        invariant Valid()
        invariant Reached(s0, clock[..n], Current(), alphas)
        decreases |clock| - n
      {
        RunStep(s0, clock, n, Current(), alphas);
        var alpha := Tick(clock[n]);
        alphas := alphas + Emitted(alpha);
        n := n + 1;
      }
    }
  }

  /** A client of the controller: the worked 1:3 scenario, starting opaque at
      t = 0, follows from the contracts of the constructor and Tick alone. */
  method ScenarioClient()
  {
    var c := new BfiController(0);
    var a := c.Tick(4_000_000);
    assert a == None;
    a := c.Tick(13_000_000);
    assert a == Some(0) && c.transparent;
    a := c.Tick(17_500_000);
    assert a == Some(255) && !c.transparent;
  }
}
