/** Cooldown safety and the rate bound for the ticks that the run loop starts. */
module LoopTicks {
  import opened Circuit
  import opened Ticks
  import opened RunLoop

  /** When tick i ended, or now if it has not. */
  function EndOf(l: Loop, i: nat): int {
    if 2 * i + 1 < |l.marks| then l.marks[2 * i + 1].at else l.now
  }

  /** What the first ticks of the loop did, all read off the clock while they ran. */
  predicate Timed(l: Loop, ticks: seq<Tick>) {
    && |ticks| <= |l.tasks|
    && forall i :: 0 <= i < |ticks| ==>
         && 2 * i < |l.marks|
         && l.marks[2 * i].at <= ticks[i].start <= LastTime(ticks[i]) <= EndOf(l, i)
  }

  /** Over every interleaving the ticks of the loop are in order: each starts after the one
      before it ended. */
  lemma LoopInOrder(moves: seq<Move>, ticks: seq<Tick>)
    requires Feasible(moves) && Timed(RunLoop.After(moves), ticks)
    ensures InOrder(ticks)
  {
    hide RunLoop.After, Feasible, LastTime;
    SoundRun(moves);
    var l := RunLoop.After(moves);
    forall i, j | 0 <= i < j < |ticks| ensures LastTime(ticks[i]) <= ticks[j].start {
      assert l.marks[2 * i + 1].at <= l.marks[2 * j].at;
    }
  }

  /** Cooldown safety of the run loop. */
  lemma LoopCooldown(s: Settings, moves: seq<Move>, ticks: seq<Tick>, i: nat, j: nat, t0: int)
    requires Feasible(moves) && Timed(RunLoop.After(moves), ticks) && i < j < |ticks|
    requires TripsAt(s, ticks, i, t0) && ticks[j].start < t0 + s.cooldown
    ensures !Polls(s, ticks, j)
  {
    LoopInOrder(moves, ticks);
    CooldownSafety(s, ticks, i, j, t0);
  }

  /** The rate bound of the run loop. */
  lemma LoopRateBound(s: Settings, moves: seq<Move>, ticks: seq<Tick>, from: nat, k: nat)
    requires Feasible(moves) && Timed(RunLoop.After(moves), ticks)
    requires ValidSettings(s) && PublisherDown(ticks, from)
    requires s.threshold + k <= |Failures(s, ticks, from)|
    ensures var f := Failures(s, ticks, from);
            && LastTime(f[s.threshold + k - 1]) >= LastTime(f[s.threshold - 1]) + k * s.cooldown
            && f[s.threshold + k - 1].start >= f[s.threshold - 1].start + k * s.cooldown
  {
    LoopInOrder(moves, ticks);
    RateBound(s, ticks, from, k);
  }
}
