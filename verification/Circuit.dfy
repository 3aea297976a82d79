/** The circuit breaker: two consecutive-failure counters, one open flag and a
    cooldown, against a specification read off the whole history. */
module Circuit {

  /** What the breaker is told.  Asked is the question at the start of a tick. */
  datatype Outcome =
    | Asked(now: int)
    | PopSuccess
    | PopFailure(at: int)
    | PublishSuccess
    | PublishFailure(at: int)

  datatype Breaker = Breaker(popFailures: nat, publishFailures: nat, isOpen: bool, openedAt: int, hasLoggedSkip: bool)

  /** The two settings; New accepts positive values only. */
  datatype Settings = Settings(threshold: int, cooldown: int)

  predicate ValidSettings(s: Settings) { s.threshold > 0 && s.cooldown > 0 }

  const CLOSED := Breaker(0, 0, false, 0, false)

  function Open(b: Breaker, now: int): Breaker {
    b.(isOpen := true, openedAt := now, hasLoggedSkip := false)
  }

  function CloseIfRecovered(s: Settings, b: Breaker): Breaker {
    if b.isOpen && b.popFailures < s.threshold && b.publishFailures < s.threshold
    then b.(isOpen := false, hasLoggedSkip := false)
    else b
  }

  predicate Allows(s: Settings, b: Breaker, now: int) {
    !b.isOpen || now - b.openedAt >= s.cooldown
  }

  /** The first refusal since the breaker opened or reopened is logged. */
  predicate LogsSkip(s: Settings, b: Breaker, now: int) {
    !Allows(s, b, now) && !b.hasLoggedSkip
  }

  function Record(s: Settings, b: Breaker, o: Outcome): Breaker {
    match o
    case Asked(now) => if LogsSkip(s, b, now) then b.(hasLoggedSkip := true) else b
    case PopSuccess => CloseIfRecovered(s, b.(popFailures := 0))
    case PublishSuccess => CloseIfRecovered(s, b.(publishFailures := 0))
    case PopFailure(at) =>
      var c := b.(popFailures := b.popFailures + 1);
      if c.popFailures >= s.threshold then Open(c, at) else c
    case PublishFailure(at) =>
      var c := b.(publishFailures := b.publishFailures + 1);
      if c.publishFailures >= s.threshold then Open(c, at) else c
  }

  class CircuitBreaker {
    const threshold: int
    const cooldown: int
    var popFailureCount: nat
    var publishFailureCount: nat
    var isOpen: bool
    var openedAt: int
    var hasLoggedSkip: bool

    ghost function State(): Breaker
      reads this
    {
      Breaker(popFailureCount, publishFailureCount, isOpen, openedAt, hasLoggedSkip)
    }

    ghost function Config(): Settings { Settings(threshold, cooldown) }

    constructor (threshold: int, cooldown: int)
      ensures State() == CLOSED && Config() == Settings(threshold, cooldown)
    {
      this.threshold := threshold;
      this.cooldown := cooldown;
      popFailureCount := 0;
      publishFailureCount := 0;
      isOpen := false;
      openedAt := 0;
      hasLoggedSkip := false;
    }

    method AllowTick(now: int) returns (isAllowed: bool, shouldLogSkip: bool)
      modifies this
      ensures isAllowed == Allows(Config(), old(State()), now)
      ensures shouldLogSkip == LogsSkip(Config(), old(State()), now)
      ensures State() == Record(Config(), old(State()), Asked(now))
    {
      if !isOpen {
        return true, false;
      }
      if now - openedAt >= cooldown {
        return true, false;
      }
      if !hasLoggedSkip {
        hasLoggedSkip := true;
        return false, true;
      }
      return false, false;
    }

    method RecordPopSuccess()
      modifies this
      ensures State() == Record(Config(), old(State()), PopSuccess)
    {
      popFailureCount := 0;
      Recover();
    }

    method RecordPopFailure(now: int)
      modifies this
      ensures State() == Record(Config(), old(State()), PopFailure(now))
    {
      popFailureCount := popFailureCount + 1;
      if popFailureCount >= threshold {
        Trip(now);
      }
    }

    method RecordPublishSuccess()
      modifies this
      ensures State() == Record(Config(), old(State()), PublishSuccess)
    {
      publishFailureCount := 0;
      Recover();
    }

    method RecordPublishFailure(now: int)
      modifies this
      ensures State() == Record(Config(), old(State()), PublishFailure(now))
    {
      publishFailureCount := publishFailureCount + 1;
      if publishFailureCount >= threshold {
        Trip(now);
      }
    }

    method Trip(now: int)
      modifies this
      ensures State() == Open(old(State()), now)
    {
      isOpen := true;
      openedAt := now;
      hasLoggedSkip := false;
    }

    method Recover()
      modifies this
      ensures State() == CloseIfRecovered(Config(), old(State()))
    {
      if !isOpen {
        return;
      }
      if popFailureCount >= threshold || publishFailureCount >= threshold {
        return;
      }
      isOpen := false;
      hasLoggedSkip := false;
    }
  }

  // ------------------------------------------------ the whole history

  function After(s: Settings, history: seq<Outcome>): Breaker
    decreases |history|
  {
    if history == [] then CLOSED
    else Record(s, After(s, history[..|history| - 1]), history[|history| - 1])
  }

  /** The pop results of a history in order; true is a failure. */
  function Pops(history: seq<Outcome>): seq<bool> {
    if history == [] then []
    else
      var rest, last := Pops(history[..|history| - 1]), history[|history| - 1];
      if last.PopFailure? then rest + [true]
      else if last.PopSuccess? then rest + [false]
      else rest
  }

  function Publishes(history: seq<Outcome>): seq<bool> {
    if history == [] then []
    else
      var rest, last := Publishes(history[..|history| - 1]), history[|history| - 1];
      if last.PublishFailure? then rest + [true]
      else if last.PublishSuccess? then rest + [false]
      else rest
  }

  /** k is the length of the failure run at the end. */
  predicate IsTrailingRun(results: seq<bool>, k: nat) {
    && k <= |results|
    && (forall i :: |results| - k <= i < |results| ==> results[i])
    && (k < |results| ==> !results[|results| - k - 1])
  }

  lemma TrailingRunUnique(results: seq<bool>, j: nat, k: nat)
    requires IsTrailingRun(results, j) && IsTrailingRun(results, k)
    ensures j == k
  {
    var x, y := |results| - j - 1, |results| - k - 1;
    assert x >= 0 ==> !results[x];
    assert y >= 0 ==> !results[y];
  }

  /** The counter of either kind reaches the threshold at outcome i. */
  predicate Trips(s: Settings, history: seq<Outcome>, i: nat)
    requires i < |history|
  {
    var b := After(s, history[..i + 1]);
    || (history[i].PopFailure? && b.popFailures >= s.threshold)
    || (history[i].PublishFailure? && b.publishFailures >= s.threshold)
  }

  function TimeOf(o: Outcome): int {
    match o
    case Asked(t) => t
    case PopFailure(t) => t
    case PublishFailure(t) => t
    case _ => 0
  }

  lemma {:induction false} CountersAreRuns(s: Settings, history: seq<Outcome>)
    requires ValidSettings(s)
    ensures var b := After(s, history);
            && IsTrailingRun(Pops(history), b.popFailures)
            && IsTrailingRun(Publishes(history), b.publishFailures)
            && (b.isOpen <==> b.popFailures >= s.threshold || b.publishFailures >= s.threshold)
    decreases |history|
  {
    if history != [] {
      CountersAreRuns(s, history[..|history| - 1]);
    }
  }

  /** The breaker refines its history: each counter is the one failure run at the end of
      its own results; the circuit is open exactly when one of the two runs has reached the
      threshold. */
  lemma RefinesHistory(s: Settings, history: seq<Outcome>)
    requires ValidSettings(s)
    ensures var b := After(s, history);
            && (forall k: nat :: IsTrailingRun(Pops(history), k) <==> k == b.popFailures)
            && (forall k: nat :: IsTrailingRun(Publishes(history), k) <==> k == b.publishFailures)
            && (b.isOpen <==> b.popFailures >= s.threshold || b.publishFailures >= s.threshold)
  {
    hide After, Pops, Publishes, IsTrailingRun;
    var b := After(s, history);
    CountersAreRuns(s, history);
    forall k: nat | IsTrailingRun(Pops(history), k) ensures k == b.popFailures {
      TrailingRunUnique(Pops(history), k, b.popFailures);
    }
    forall k: nat | IsTrailingRun(Publishes(history), k) ensures k == b.publishFailures {
      TrailingRunUnique(Publishes(history), k, b.publishFailures);
    }
  }

  predicate IsLastTrip(s: Settings, history: seq<Outcome>, i: nat) {
    && i < |history| && Trips(s, history, i)
    && forall j :: i < j < |history| ==> !Trips(s, history, j)
  }

  lemma TripsPrefix(s: Settings, history: seq<Outcome>, n: nat, i: nat)
    requires i < n <= |history|
    ensures Trips(s, history[..n], i) == Trips(s, history, i)
  {
    assert history[..n][..i + 1] == history[..i + 1];
  }

  lemma StaysOpen(s: Settings, b: Breaker, o: Outcome)
    requires Record(s, b, o).isOpen
    requires !(o.PopFailure? && Record(s, b, o).popFailures >= s.threshold)
    requires !(o.PublishFailure? && Record(s, b, o).publishFailures >= s.threshold)
    ensures b.isOpen && b.openedAt == Record(s, b, o).openedAt
  {
  }

  lemma TripTime(s: Settings, history: seq<Outcome>)
    requires history != [] && Trips(s, history, |history| - 1)
    ensures After(s, history).openedAt == TimeOf(history[|history| - 1])
  {
    assert history[..|history|] == history;
  }

  lemma NoTripStaysOpen(s: Settings, history: seq<Outcome>)
    requires ValidSettings(s) && After(s, history).isOpen && history != [] && !Trips(s, history, |history| - 1)
    ensures After(s, history[..|history| - 1]).isOpen
    ensures After(s, history[..|history| - 1]).openedAt == After(s, history).openedAt
  {
    assert history[..|history|] == history;
    StaysOpen(s, After(s, history[..|history| - 1]), history[|history| - 1]);
  }

  /** While open, the cooldown runs from the last failure at or above the threshold. */
  lemma {:induction false} OpenedAtLastTrip(s: Settings, history: seq<Outcome>)
    requires ValidSettings(s) && After(s, history).isOpen
    ensures exists i: nat :: IsLastTrip(s, history, i) && TimeOf(history[i]) == After(s, history).openedAt
    decreases |history|
  {
    hide Record, Trips;
    var n := |history| - 1;
    var before := history[..n];
    assert history[..n + 1] == history;
    if Trips(s, history, n) {
      TripTime(s, history);
      assert IsLastTrip(s, history, n);
    } else {
      NoTripStaysOpen(s, history);
      OpenedAtLastTrip(s, before);
      var i: nat :| IsLastTrip(s, before, i) && TimeOf(before[i]) == After(s, before).openedAt;
      forall j | 0 <= j < n ensures Trips(s, before, j) == Trips(s, history, j) {
        TripsPrefix(s, history, n, j);
      }
      assert IsLastTrip(s, history, i);
    }
  }

  /** Exactly when a tick is allowed, read off the history.  With both failure runs below the
      threshold always; otherwise from the moment when the cooldown has passed since the last
      failure at or above the threshold, and not before. */
  lemma AllowsExactly(s: Settings, history: seq<Outcome>, now: int, j: nat, k: nat)
    requires ValidSettings(s)
    requires IsTrailingRun(Pops(history), j) && IsTrailingRun(Publishes(history), k)
    ensures j < s.threshold && k < s.threshold ==> Allows(s, After(s, history), now)
    ensures j >= s.threshold || k >= s.threshold ==>
              && (exists i: nat :: IsLastTrip(s, history, i))
              && forall i: nat :: IsLastTrip(s, history, i) ==>
                   (Allows(s, After(s, history), now) <==> now >= TimeOf(history[i]) + s.cooldown)
  {
    hide After, Pops, Publishes, IsTrailingRun, Trips;
    RefinesHistory(s, history);
    if j >= s.threshold || k >= s.threshold {
      OpenedAtLastTrip(s, history);
    }
  }

  // -------------------------------------------------------- skip logging

  function SkipLogs(s: Settings, history: seq<Outcome>): nat
    decreases |history|
  {
    if history == [] then 0
    else
      var before, last := history[..|history| - 1], history[|history| - 1];
      SkipLogs(s, before) + if last.Asked? && LogsSkip(s, After(s, before), last.now) then 1 else 0
  }

  function TripCount(s: Settings, history: seq<Outcome>): nat
    decreases |history|
  {
    if history == [] then 0
    else
      assert history[..|history| - 1 + 1] == history;
      TripCount(s, history[..|history| - 1]) + if Trips(s, history, |history| - 1) then 1 else 0
  }

  /** Over any run, skip logs never outnumber openings and reopenings. */
  lemma {:induction false} SkipLogsBounded(s: Settings, history: seq<Outcome>)
    ensures SkipLogs(s, history) + (if After(s, history).isOpen && !After(s, history).hasLoggedSkip then 1 else 0)
         <= TripCount(s, history)
    decreases |history|
  {
    if history != [] {
      SkipLogsBounded(s, history[..|history| - 1]);
      assert history[..|history| - 1 + 1] == history;
    }
  }

  /** Between two openings at most one skip is logged. */
  lemma {:induction false} OneSkipPerOpening(s: Settings, history: seq<Outcome>, from: nat)
    requires ValidSettings(s) && from <= |history|
    requires forall i :: from <= i < |history| ==> !Trips(s, history, i)
    ensures SkipLogs(s, history)
         <= SkipLogs(s, history[..from])
            + (if After(s, history).isOpen && !After(s, history).hasLoggedSkip then 0 else 1)
    decreases |history|
  {
    if from == |history| {
      assert history[..from] == history;
    } else {
      var n := |history| - 1;
      var before := history[..n];
      assert before[..from] == history[..from] && history[..n + 1] == history;
      forall i | from <= i < n ensures !Trips(s, before, i) {
        assert before[..i + 1] == history[..i + 1];
        assert !Trips(s, history, i);
      }
      assert !Trips(s, history, n);
      OneSkipPerOpening(s, before, from);
    }
  }

  /** The question at outcome j was refused. */
  predicate RefusedAt(s: Settings, history: seq<Outcome>, j: nat)
    requires j < |history|
  {
    history[j].Asked? && !Allows(s, After(s, history[..j]), history[j].now)
  }

  /** Since outcome i no question was refused. */
  predicate NoneRefusedSince(s: Settings, history: seq<Outcome>, i: nat) {
    forall j :: i < j < |history| ==> !RefusedAt(s, history, j)
  }

  lemma {:induction false} LoggedSince(s: Settings, history: seq<Outcome>, i: nat)
    requires ValidSettings(s) && IsLastTrip(s, history, i) && After(s, history).isOpen
    ensures After(s, history).hasLoggedSkip <==> !NoneRefusedSince(s, history, i)
    decreases |history|
  {
    var n := |history| - 1;
    var before := history[..n];
    assert history[..n + 1] == history;
    if i == n {
      assert Trips(s, history, n);
    } else {
      NoTripStaysOpen(s, history);
      forall j | 0 <= j < n
        ensures Trips(s, before, j) == Trips(s, history, j) && RefusedAt(s, before, j) == RefusedAt(s, history, j)
      {
        TripsPrefix(s, history, n, j);
        assert before[..j] == history[..j];
      }
      hide Trips, RefusedAt;
      LoggedSince(s, before, i);
      LastRefusal(s, history);
    }
  }

  lemma LastRefusal(s: Settings, history: seq<Outcome>)
    requires ValidSettings(s) && history != [] && After(s, history).isOpen && !Trips(s, history, |history| - 1)
    ensures After(s, history).hasLoggedSkip
       <==> After(s, history[..|history| - 1]).hasLoggedSkip || RefusedAt(s, history, |history| - 1)
  {
    assert history[..|history|] == history;
    NoTripStaysOpen(s, history);
  }

  /** Exactly which refusals are logged: the first one after the last opening or
      reopening. */
  lemma LogsFirstRefusal(s: Settings, history: seq<Outcome>, now: int)
    requires ValidSettings(s)
    ensures LogsSkip(s, After(s, history), now)
       <==> !Allows(s, After(s, history), now)
            && exists i: nat :: IsLastTrip(s, history, i) && NoneRefusedSince(s, history, i)
  {
    hide After, Trips, NoneRefusedSince;
    if !Allows(s, After(s, history), now) {
      OpenedAtLastTrip(s, history);
      forall i: nat | IsLastTrip(s, history, i)
        ensures After(s, history).hasLoggedSkip <==> !NoneRefusedSince(s, history, i)
      {
        LoggedSince(s, history, i);
      }
    }
  }
}
