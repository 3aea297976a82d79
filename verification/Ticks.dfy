/** Sequential ticks driving the breaker: cooldown safety and the rate bound. */
module Ticks {
  import opened Circuit

  datatype PublishKind = Published | PublishFailed(at: int)

  /** What the queue and the publisher would answer in a tick.  A failure carries the
      time at which it is recorded. */
  datatype PopKind = PopFailed(at: int) | Empty | OddSize | Pair(publish: PublishKind)

  datatype Tick = Tick(start: int, pop: PopKind)

  /** What an allowed tick records after its pop. */
  function Recorded(pop: PopKind): seq<Outcome> {
    match pop
    case PopFailed(at) => [PopFailure(at)]
    case Empty => [PopSuccess]
    case OddSize => [PopSuccess]
    case Pair(Published) => [PopSuccess, PublishSuccess]
    case Pair(PublishFailed(at)) => [PopSuccess, PublishFailure(at)]
  }

  function RecordAll(s: Settings, b: Breaker, os: seq<Outcome>): Breaker
    decreases |os|
  {
    if os == [] then b else RecordAll(s, Record(s, b, os[0]), os[1..])
  }

  lemma RecordFew(s: Settings, b: Breaker, x: Outcome, y: Outcome)
    ensures RecordAll(s, b, [x]) == Record(s, b, x)
    ensures RecordAll(s, b, [x, y]) == Record(s, Record(s, b, x), y)
  {
    hide Record;
    var c := Record(s, b, x);
    assert [x][1..] == [] && [y][1..] == [] && [x, y][1..] == [y];
    assert RecordAll(s, c, []) == c;
    assert RecordAll(s, c, [y]) == RecordAll(s, Record(s, c, y), []);
  }

  /** One tick: ask; if refused, pop nothing and record nothing. */
  function TickEffect(s: Settings, b: Breaker, t: Tick): Breaker {
    var asked := Record(s, b, Asked(t.start));
    if Allows(s, b, t.start) then RecordAll(s, asked, Recorded(t.pop)) else asked
  }

  function RunTicks(s: Settings, ticks: seq<Tick>): Breaker
    decreases |ticks|
  {
    if ticks == [] then CLOSED
    else TickEffect(s, RunTicks(s, ticks[..|ticks| - 1]), ticks[|ticks| - 1])
  }

  /** Everything the breaker hears over the ticks. */
  function Heard(s: Settings, ticks: seq<Tick>): seq<Outcome>
    decreases |ticks|
  {
    if ticks == [] then []
    else
      var n := |ticks| - 1;
      Heard(s, ticks[..n]) + [Asked(ticks[n].start)]
      + if Allows(s, RunTicks(s, ticks[..n]), ticks[n].start) then Recorded(ticks[n].pop) else []
  }

  lemma {:induction false} AfterMore(s: Settings, history: seq<Outcome>, more: seq<Outcome>)
    ensures After(s, history + more) == RecordAll(s, After(s, history), more)
    decreases |more|
  {
    hide Record;
    if more == [] {
      assert history + [] == history;
    } else {
      assert (history + [more[0]])[..|history|] == history;
      assert history + more == (history + [more[0]]) + more[1..];
      AfterMore(s, history + [more[0]], more[1..]);
    }
  }

  /** A run of ticks is a history of the breaker, so what is proved of histories holds
      of runs: the circuit is open exactly when a failure run has reached the threshold. */
  lemma {:induction false} TicksAreHistory(s: Settings, ticks: seq<Tick>)
    ensures RunTicks(s, ticks) == After(s, Heard(s, ticks))
    decreases |ticks|
  {
    hide Record, Allows;
    if ticks != [] {
      var n := |ticks| - 1;
      var before := Heard(s, ticks[..n]);
      TicksAreHistory(s, ticks[..n]);
      assert (before + [Asked(ticks[n].start)])[..|before|] == before;
      AfterMore(s, before + [Asked(ticks[n].start)], Recorded(ticks[n].pop));
      assert before + [Asked(ticks[n].start)] + [] == before + [Asked(ticks[n].start)];
    }
  }

  /** Tick i asks the queue for a pair. */
  predicate Polls(s: Settings, ticks: seq<Tick>, i: nat)
    requires i < |ticks|
  {
    Allows(s, RunTicks(s, ticks[..i]), ticks[i].start)
  }

  function LastTime(t: Tick): int {
    match t.pop
    case PopFailed(at) => at
    case Pair(PublishFailed(at)) => at
    case _ => t.start
  }

  /** The clock never goes back, and a tick starts after the one before it ended. */
  predicate InOrder(ticks: seq<Tick>) {
    && (forall i :: 0 <= i < |ticks| ==> ticks[i].start <= LastTime(ticks[i]))
    && (forall i, j :: 0 <= i < j < |ticks| ==> LastTime(ticks[i]) <= ticks[j].start)
  }

  predicate FailedAt(t: Tick, t0: int) {
    t.pop == PopFailed(t0) || t.pop == Pair(PublishFailed(t0))
  }

  /** Tick i polls, and records at t0 a failure that reaches the threshold. */
  predicate TripsAt(s: Settings, ticks: seq<Tick>, i: nat, t0: int)
    requires i < |ticks|
  {
    && Polls(s, ticks, i)
    && FailedAt(ticks[i], t0)
    && var b := RunTicks(s, ticks[..i + 1]);
       if ticks[i].pop.PopFailed? then b.popFailures >= s.threshold else b.publishFailures >= s.threshold
  }

  predicate OpenSince(b: Breaker, t0: int) { b.isOpen && b.openedAt == t0 }

  lemma TickTrips(s: Settings, b: Breaker, t: Tick, t0: int)
    requires Allows(s, b, t.start) && FailedAt(t, t0)
    requires var c := TickEffect(s, b, t);
             if t.pop.PopFailed? then c.popFailures >= s.threshold else c.publishFailures >= s.threshold
    ensures OpenSince(TickEffect(s, b, t), t0)
  {
    var asked := Record(s, b, Asked(t.start));
    if t.pop.Pair? {
      RecordFew(s, asked, PopSuccess, PublishFailure(t0));
    } else {
      RecordFew(s, asked, PopFailure(t0), PopSuccess);
    }
  }

  /** During the cooldown the breaker stays as it is, whatever ticks come. */
  lemma {:induction false} HoldsThroughCooldown(s: Settings, ticks: seq<Tick>, i: nat, j: nat, t0: int)
    requires InOrder(ticks) && i < j < |ticks|
    requires TripsAt(s, ticks, i, t0) && ticks[j].start < t0 + s.cooldown
    ensures OpenSince(RunTicks(s, ticks[..j]), t0)
    decreases j
  {
    if j == i + 1 {
      assert ticks[..j][..i] == ticks[..i];
      TickTrips(s, RunTicks(s, ticks[..i]), ticks[i], t0);
    } else {
      assert LastTime(ticks[j - 1]) <= ticks[j].start;
      HoldsThroughCooldown(s, ticks, i, j - 1, t0);
      assert ticks[..j][..j - 1] == ticks[..j - 1];
    }
  }

  /** Cooldown safety: after a failure at or above the threshold is recorded at t0, no
      later tick that starts before t0 + cooldown calls PopPair. */
  lemma CooldownSafety(s: Settings, ticks: seq<Tick>, i: nat, j: nat, t0: int)
    requires InOrder(ticks) && i < j < |ticks|
    requires TripsAt(s, ticks, i, t0) && ticks[j].start < t0 + s.cooldown
    ensures !Polls(s, ticks, j)
  {
    HoldsThroughCooldown(s, ticks, i, j, t0);
  }

  /** Exactly when a tick polls: what the breaker heard before decides. */
  lemma PollsExactly(s: Settings, ticks: seq<Tick>, n: nat, j: nat, k: nat)
    requires ValidSettings(s) && n < |ticks|
    requires var heard := Heard(s, ticks[..n]); IsTrailingRun(Pops(heard), j) && IsTrailingRun(Publishes(heard), k)
    ensures j < s.threshold && k < s.threshold ==> Polls(s, ticks, n)
    ensures j >= s.threshold || k >= s.threshold ==>
              var heard := Heard(s, ticks[..n]);
              && (exists i: nat :: IsLastTrip(s, heard, i))
              && forall i: nat :: IsLastTrip(s, heard, i) ==>
                   (Polls(s, ticks, n) <==> ticks[n].start >= TimeOf(heard[i]) + s.cooldown)
  {
    hide Heard, RunTicks, Pops, Publishes, IsTrailingRun, IsLastTrip, Allows;
    TicksAreHistory(s, ticks[..n]);
    AllowsExactly(s, Heard(s, ticks[..n]), ticks[n].start, j, k);
  }

  /** What one tick does to the two counts: a refused tick nothing; a failed pop adds to the
      pop failures and says nothing of publishing; any answered pop ends the run of pop
      failures; and only a popped pair tells of publishing, ending that run or adding to it. */
  lemma TickCounts(s: Settings, b: Breaker, t: Tick)
    ensures var c := TickEffect(s, b, t);
            && c.popFailures == (if !Allows(s, b, t.start) then b.popFailures
                                 else if t.pop.PopFailed? then b.popFailures + 1
                                 else 0)
            && c.publishFailures == (if !Allows(s, b, t.start) || !t.pop.Pair? then b.publishFailures
                                     else if t.pop.publish == Published then 0
                                     else b.publishFailures + 1)
  {
    var asked := Record(s, b, Asked(t.start));
    match t.pop
    case PopFailed(at) => RecordFew(s, asked, PopFailure(at), PopSuccess);
    case Pair(Published) => RecordFew(s, asked, PopSuccess, PublishSuccess);
    case Pair(PublishFailed(at)) => RecordFew(s, asked, PopSuccess, PublishFailure(at));
    case _ => RecordFew(s, asked, PopSuccess, PopSuccess);
  }

  // ---------------------------------------------------------- rate bound

  /** From tick `from` on no publish succeeds. */
  predicate PublisherDown(ticks: seq<Tick>, from: nat) {
    forall i :: from <= i < |ticks| ==> ticks[i].pop != Pair(Published)
  }

  /** The ticks from tick `from` on that poll, get a pair and fail to publish it. */
  function Failures(s: Settings, ticks: seq<Tick>, from: nat): (fs: seq<Tick>)
    ensures forall k :: 0 <= k < |fs| ==> FailedPair(fs[k])
    decreases |ticks|
  {
    if |ticks| <= from then []
    else
      var n := |ticks| - 1;
      Failures(s, ticks[..n], from)
      + if Polls(s, ticks, n) && FailedPair(ticks[n]) then [ticks[n]] else []
  }

  predicate FailedPair(t: Tick) { t.pop.Pair? && t.pop.publish.PublishFailed? }

  lemma TickWhileDown(s: Settings, b: Breaker, t: Tick)
    requires t.pop != Pair(Published)
    ensures var c := TickEffect(s, b, t);
            if Allows(s, b, t.start) && t.pop.Pair?
            then
              && c.publishFailures == b.publishFailures + 1
              && (c.publishFailures >= s.threshold ==> OpenSince(c, t.pop.publish.at))
            else
              && c.publishFailures == b.publishFailures
              && (b.isOpen && b.publishFailures >= s.threshold ==>
                    && c.isOpen
                    && (|| c.openedAt == b.openedAt
                        || (t.pop.PopFailed? && Allows(s, b, t.start) && c.openedAt == t.pop.at)))
  {
    var asked := Record(s, b, Asked(t.start));
    if t.pop.Pair? {
      RecordFew(s, asked, PopSuccess, PublishFailure(t.pop.publish.at));
    } else {
      RecordFew(s, asked, if t.pop.PopFailed? then PopFailure(t.pop.at) else PopSuccess, PopSuccess);
    }
  }

  /** Once the threshold is reached the circuit stays open, at least since the last publish
      failure. */
  lemma {:induction false} DownInvariant(s: Settings, ticks: seq<Tick>, from: nat)
    requires ValidSettings(s) && InOrder(ticks) && PublisherDown(ticks, from)
    ensures var b, f := RunTicks(s, ticks), Failures(s, ticks, from);
            && b.publishFailures >= |f|
            && (|f| > 0 ==> exists i :: 0 <= i < |ticks| && f[|f| - 1] == ticks[i])
            && (|f| >= s.threshold ==> b.isOpen && b.openedAt >= LastTime(f[|f| - 1]))
    decreases |ticks|
  {
    if |ticks| > from {
      var n := |ticks| - 1;
      var before := ticks[..n];
      DownInvariant(s, before, from);
      TickWhileDown(s, RunTicks(s, before), ticks[n]);
      hide TickEffect, Allows;
      var f := Failures(s, before, from);
      if |f| > 0 {
        var i :| 0 <= i < n && f[|f| - 1] == before[i];
        assert f[|f| - 1] == ticks[i];
        assert LastTime(ticks[i]) <= ticks[n].start <= LastTime(ticks[n]);
      }
    }
  }

  /** Past the threshold each failing tick starts at least a cooldown after the failure
      before it. */
  lemma {:induction false} FailuresApart(s: Settings, ticks: seq<Tick>, from: nat, k: nat)
    requires ValidSettings(s) && InOrder(ticks) && PublisherDown(ticks, from)
    requires s.threshold <= k < |Failures(s, ticks, from)|
    ensures var f := Failures(s, ticks, from);
            LastTime(f[k - 1]) + s.cooldown <= f[k].start <= LastTime(f[k])
    decreases |ticks|
  {
    var n := |ticks| - 1;
    var before := ticks[..n];
    if k < |Failures(s, before, from)| {
      FailuresApart(s, before, from, k);
    } else {
      DownInvariant(s, before, from);
    }
  }

  /** Rate bound: from any tick on after which no publish succeeds, with threshold T and
      failure times t_1, t_2, ..., t_(T+k) >= t_T + k * cooldown, and so it is with the
      starts of the failing ticks; whatever empty or failing pops come between. */
  lemma {:induction false} RateBound(s: Settings, ticks: seq<Tick>, from: nat, k: nat)
    requires ValidSettings(s) && InOrder(ticks) && PublisherDown(ticks, from)
    requires s.threshold + k <= |Failures(s, ticks, from)|
    ensures var f := Failures(s, ticks, from);
            && LastTime(f[s.threshold + k - 1]) >= LastTime(f[s.threshold - 1]) + k * s.cooldown
            && f[s.threshold + k - 1].start >= f[s.threshold - 1].start + k * s.cooldown
    decreases k
  {
    if k > 0 {
      RateBound(s, ticks, from, k - 1);
      FailuresApart(s, ticks, from, s.threshold + k - 1);
      FailureIsTick(s, ticks, from, s.threshold + k - 2);
      assert k * s.cooldown == (k - 1) * s.cooldown + s.cooldown;
    }
  }

  lemma {:induction false} FailureIsTick(s: Settings, ticks: seq<Tick>, from: nat, k: nat)
    requires InOrder(ticks) && k < |Failures(s, ticks, from)|
    ensures Failures(s, ticks, from)[k].start <= LastTime(Failures(s, ticks, from)[k])
    decreases |ticks|
  {
    var n := |ticks| - 1;
    if k < |Failures(s, ticks[..n], from)| {
      FailureIsTick(s, ticks[..n], from, k);
    }
  }

  /** The ticks from tick `from` on that poll and are answered with a pair. */
  function Answered(s: Settings, ticks: seq<Tick>, from: nat): seq<Tick>
    decreases |ticks|
  {
    if |ticks| <= from then []
    else
      var n := |ticks| - 1;
      Answered(s, ticks[..n], from) + if Polls(s, ticks, n) && ticks[n].pop.Pair? then [ticks[n]] else []
  }

  /** While no publish succeeds, the ticks answered with a pair are the failing ones. */
  lemma {:induction false} AnsweredAreFailures(s: Settings, ticks: seq<Tick>, from: nat)
    requires PublisherDown(ticks, from)
    ensures Answered(s, ticks, from) == Failures(s, ticks, from)
    decreases |ticks|
  {
    if |ticks| > from {
      AnsweredAreFailures(s, ticks[..|ticks| - 1], from);
    }
  }
}
