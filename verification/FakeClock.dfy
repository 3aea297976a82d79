/** The hand-driven clock of the matcher tests: a discrete-event simulator with
    one-shot timers and periodic tickers. */
module FakeClock {

  datatype Timer = Timer(id: nat, at: int)

  /** A ticker is known by its position: the list of tickers only grows. */
  datatype Ticker = Ticker(interval: int, next: int, isActive: bool)

  datatype Source = FromTimer(id: nat) | FromTicker(index: nat)

  datatype Due = Due(at: int, source: Source)

  /** `inbox` holds the unread notification of each channel, at most one. */
  datatype State = State(now: int, timers: seq<Timer>, tickers: seq<Ticker>, inbox: map<Source, int>)

  predicate DistinctIds(timers: seq<Timer>) {
    forall i, j :: 0 <= i < j < |timers| ==> timers[i].id != timers[j].id
  }

  /** Timers are distinct, and no ticker stands still or runs backwards before the target. */
  predicate Ends(s: State, target: int) {
    && DistinctIds(s.timers)
    && forall i :: 0 <= i < |s.tickers| && s.tickers[i].isActive && s.tickers[i].next <= target ==>
         s.tickers[i].interval > 0
  }

  /** Nothing is overdue. */
  predicate UpToDate(s: State) {
    && (forall i :: 0 <= i < |s.timers| ==> s.timers[i].at >= s.now)
    && (forall i :: 0 <= i < |s.tickers| && s.tickers[i].isActive ==> s.tickers[i].next >= s.now)
  }

  // ------------------------------------------------------------ what is due

  function TimerDues(timers: seq<Timer>, target: int): seq<Due> {
    if timers == [] then []
    else
      var n := |timers| - 1;
      TimerDues(timers[..n], target)
      + if timers[n].at <= target then [Due(timers[n].at, FromTimer(timers[n].id))] else []
  }

  function TickerDues(tickers: seq<Ticker>, target: int): seq<Due> {
    if tickers == [] then []
    else
      var n := |tickers| - 1;
      TickerDues(tickers[..n], target)
      + if tickers[n].isActive && tickers[n].next <= target then [Due(tickers[n].next, FromTicker(n))] else []
  }

  /** Due notifications in the order they are collected: timers, then tickers. */
  function Dues(s: State, target: int): seq<Due> {
    TimerDues(s.timers, target) + TickerDues(s.tickers, target)
  }

  /** The head of a stable sort by time. */
  function Earliest(dues: seq<Due>): (d: Due)
    requires dues != []
    ensures d in dues
  {
    if |dues| == 1 then dues[0]
    else
      var rest := Earliest(dues[1..]);
      if dues[0].at <= rest.at then dues[0] else rest
  }

  /** Position i is strictly before everything collected earlier and no later than the rest. */
  predicate FirstLeast(dues: seq<Due>, i: int) {
    && 0 <= i < |dues|
    && (forall j :: 0 <= j < i ==> dues[j].at > dues[i].at)
    && (forall j :: i <= j < |dues| ==> dues[j].at >= dues[i].at)
  }

  lemma {:induction false} EarliestIsFirstLeast(dues: seq<Due>)
    requires dues != []
    ensures exists i :: FirstLeast(dues, i) && dues[i] == Earliest(dues)
  {
    assert |dues| > 1 ==> [dues[0]] + dues[1..] == dues;
    EarliestLeast(dues);
    if dues[0] == Earliest(dues) {
      assert FirstLeast(dues, 0);
    } else {
      EarliestIsFirstLeast(dues[1..]);
      var i :| FirstLeast(dues[1..], i) && dues[1..][i] == Earliest(dues[1..]);
      FirstLeastCons(dues, i);
      assert dues[i + 1] == Earliest(dues);
    }
  }

  lemma FirstLeastCons(dues: seq<Due>, i: int)
    requires dues != [] && FirstLeast(dues[1..], i) && dues[0].at > dues[1..][i].at
    ensures FirstLeast(dues, i + 1)
  {
    forall j | 0 <= j < |dues| - 1 ensures dues[j + 1] == dues[1..][j] {}
  }

  lemma {:induction false} EarliestLeast(dues: seq<Due>)
    requires dues != []
    ensures forall d :: d in dues ==> Earliest(dues).at <= d.at
  {
    if |dues| > 1 {
      EarliestLeast(dues[1..]);
      assert dues == [dues[0]] + dues[1..];
    }
  }

  lemma {:induction false} InTimerDues(timers: seq<Timer>, target: int, d: Due)
    ensures d in TimerDues(timers, target)
       <==> exists i :: 0 <= i < |timers| && timers[i].at <= target && d == Due(timers[i].at, FromTimer(timers[i].id))
  {
    if timers != [] {
      var n := |timers| - 1;
      InTimerDues(timers[..n], target, d);
      if d in TimerDues(timers[..n], target) {
        var i :| 0 <= i < n && timers[..n][i].at <= target && d == Due(timers[..n][i].at, FromTimer(timers[..n][i].id));
        assert timers[i] == timers[..n][i];
      }
      if i :| 0 <= i < n && timers[i].at <= target && d == Due(timers[i].at, FromTimer(timers[i].id)) {
        assert timers[..n][i] == timers[i];
      }
    }
  }

  lemma {:induction false} InTickerDues(tickers: seq<Ticker>, target: int, d: Due)
    ensures d in TickerDues(tickers, target)
       <==> d.source.FromTicker? && d.source.index < |tickers|
            && tickers[d.source.index].isActive && tickers[d.source.index].next <= target
            && d.at == tickers[d.source.index].next
  {
    if tickers != [] {
      InTickerDues(tickers[..|tickers| - 1], target, d);
    }
  }

  // ---------------------------------------------------------------- firing

  function FilterOut(timers: seq<Timer>, id: nat): (r: seq<Timer>)
    ensures |r| <= |timers|
    ensures forall t :: t in r <==> t in timers && t.id != id
  {
    if timers == [] then []
    else
      var n := |timers| - 1;
      FilterOut(timers[..n], id) + if timers[n].id != id then [timers[n]] else []
  }

  /** A send that never waits: an unread notification is kept and the new one dropped. */
  function Send(inbox: map<Source, int>, source: Source, at: int): map<Source, int> {
    if source in inbox then inbox else inbox[source := at]
  }

  function Fire(s: State, d: Due): State
    requires d.source.FromTicker? ==> d.source.index < |s.tickers|
  {
    var inbox := Send(s.inbox, d.source, d.at);
    match d.source
    case FromTimer(id) => s.(now := d.at, inbox := inbox, timers := FilterOut(s.timers, id))
    case FromTicker(i) =>
      s.(now := d.at, inbox := inbox,
          tickers := s.tickers[i := s.tickers[i].(next := s.tickers[i].next + s.tickers[i].interval)])
  }

  /** What a ticker can still fire by the target, counted in time units. */
  function Left(t: Ticker, target: int): nat {
    if t.isActive && t.next <= target then target - t.next + 1 else 0
  }

  function LeftAll(tickers: seq<Ticker>, target: int): nat {
    if tickers == [] then 0
    else LeftAll(tickers[..|tickers| - 1], target) + Left(tickers[|tickers| - 1], target)
  }

  function Measure(s: State, target: int): nat { |s.timers| + LeftAll(s.tickers, target) }

  lemma {:induction false} LeftAllUpdate(tickers: seq<Ticker>, i: nat, t: Ticker, target: int)
    requires i < |tickers|
    ensures LeftAll(tickers[i := t], target) + Left(tickers[i], target) == LeftAll(tickers, target) + Left(t, target)
  {
    var n := |tickers| - 1;
    if i == n {
      assert tickers[i := t][..n] == tickers[..n];
    } else {
      LeftAllUpdate(tickers[..n], i, t, target);
      assert tickers[i := t][..n] == tickers[..n][i := t];
    }
  }

  lemma FilterNext(timers: seq<Timer>, i: nat, id: nat)
    requires i < |timers|
    ensures FilterOut(timers[..i + 1], id)
        == FilterOut(timers[..i], id) + if timers[i].id != id then [timers[i]] else []
  {
    assert timers[..i + 1][..i] == timers[..i];
  }

  lemma {:induction false} FilterShrinks(timers: seq<Timer>, i: nat)
    requires i < |timers|
    ensures |FilterOut(timers, timers[i].id)| < |timers|
  {
    if i < |timers| - 1 {
      FilterShrinks(timers[..|timers| - 1], i);
    }
  }

  lemma {:induction false} FilterDistinct(timers: seq<Timer>, id: nat)
    requires DistinctIds(timers)
    ensures DistinctIds(FilterOut(timers, id))
  {
    if timers != [] {
      var n := |timers| - 1;
      FilterDistinct(timers[..n], id);
      var r := FilterOut(timers[..n], id);
      forall i | 0 <= i < |r| ensures r[i].id != timers[n].id {
        assert r[i] in timers[..n];
      }
    }
  }

  /** Firing what is due brings the simulation closer to its end. */
  lemma FireProgress(s: State, target: int)
    requires Ends(s, target) && Dues(s, target) != []
    ensures var d := Earliest(Dues(s, target));
            && d.at <= target
            && (d.source.FromTicker? ==> d.source.index < |s.tickers|)
            && Ends(Fire(s, d), target) && Measure(Fire(s, d), target) < Measure(s, target)
  {
    hide Earliest, LeftAll;
    var d := Earliest(Dues(s, target));
    InTimerDues(s.timers, target, d);
    InTickerDues(s.tickers, target, d);
    if d in TimerDues(s.timers, target) {
      var i :| 0 <= i < |s.timers| && s.timers[i].at <= target && d == Due(s.timers[i].at, FromTimer(s.timers[i].id));
      FilterShrinks(s.timers, i);
      FilterDistinct(s.timers, d.source.id);
    } else {
      var i := d.source.index;
      LeftAllUpdate(s.tickers, i, s.tickers[i].(next := s.tickers[i].next + s.tickers[i].interval), target);
    }
  }

  // --------------------------------------------------------------- advance

  /** The specification of Advance: fire the earliest due notification until none is. */
  function AdvanceTo(s: State, target: int): State
    requires Ends(s, target)
    decreases Measure(s, target)
  {
    if Dues(s, target) == [] then s.(now := target)
    else
      FireProgress(s, target);
      AdvanceTo(Fire(s, Earliest(Dues(s, target))), target)
  }

  /** The notifications Advance fires, in order. */
  function Firings(s: State, target: int): seq<Due>
    requires Ends(s, target)
    decreases Measure(s, target)
  {
    if Dues(s, target) == [] then []
    else
      FireProgress(s, target);
      var d := Earliest(Dues(s, target));
      [d] + Firings(Fire(s, d), target)
  }

  lemma FireEnds(s: State, d: Due, target: int, later: int)
    requires Ends(s, later) && d in Dues(s, target) && target <= later
    requires d.source.FromTicker? ==> d.source.index < |s.tickers|
    ensures Ends(Fire(s, d), later)
  {
    hide TimerDues, TickerDues;
    InTimerDues(s.timers, target, d);
    InTickerDues(s.tickers, target, d);
    if d.source.FromTimer? {
      FilterDistinct(s.timers, d.source.id);
    }
  }

  lemma {:induction false} AdvanceKeepsEnds(s: State, target: int, later: int)
    requires Ends(s, later) && target <= later
    ensures Ends(AdvanceTo(s, target), later)
    decreases Measure(s, target)
  {
    if Dues(s, target) != [] {
      hide Earliest, Dues, Fire;
      var d := Earliest(Dues(s, target));
      FireProgress(s, target);
      FireEnds(s, d, target, later);
      AdvanceKeepsEnds(Fire(s, d), target, later);
    }
  }

  // --------------------------------------------- exactly when Advance ends

  lemma DueInRange(s: State, target: int)
    requires Dues(s, target) != []
    ensures var d := Earliest(Dues(s, target)); d.source.FromTicker? ==> d.source.index < |s.tickers|
  {
    hide Earliest, TimerDues, TickerDues;
    var d := Earliest(Dues(s, target));
    InTimerDues(s.timers, target, d);
    InTickerDues(s.tickers, target, d);
  }

  /** Up to n firings of what is due, one by one. */
  function FireSome(s: State, target: int, n: nat): State
    decreases n
  {
    if n == 0 || Dues(s, target) == [] then s
    else
      DueInRange(s, target);
      FireSome(Fire(s, Earliest(Dues(s, target))), target, n - 1)
  }

  /** An active ticker that is due and never gets past the target. */
  predicate Stuck(s: State, target: int, i: nat) {
    i < |s.tickers| && s.tickers[i].isActive && s.tickers[i].next <= target && s.tickers[i].interval <= 0
  }

  lemma {:induction false} StuckForever(s: State, target: int, i: nat, n: nat)
    requires Stuck(s, target, i)
    ensures Dues(FireSome(s, target, n), target) != []
    decreases n
  {
    hide Earliest, TimerDues, TickerDues;
    InTickerDues(s.tickers, target, Due(s.tickers[i].next, FromTicker(i)));
    if n > 0 {
      DueInRange(s, target);
      StuckForever(Fire(s, Earliest(Dues(s, target))), target, i, n - 1);
    }
  }

  lemma {:induction false} EndsSometime(s: State, target: int)
    requires Ends(s, target)
    ensures exists n: nat :: Dues(FireSome(s, target, n), target) == []
    decreases Measure(s, target)
  {
    if Dues(s, target) == [] {
      assert Dues(FireSome(s, target, 0), target) == [];
    } else {
      hide Earliest, Dues, Fire;
      FireProgress(s, target);
      var s1 := Fire(s, Earliest(Dues(s, target)));
      EndsSometime(s1, target);
      var n: nat :| Dues(FireSome(s1, target, n), target) == [];
      assert FireSome(s, target, n + 1) == FireSome(s1, target, n);
    }
  }

  /** Advance comes to an end exactly when every active ticker that is due has a positive
      interval. */
  lemma EndsExactly(s: State, target: int)
    requires DistinctIds(s.timers)
    ensures Ends(s, target) <==> exists n: nat :: Dues(FireSome(s, target, n), target) == []
  {
    hide Dues, FireSome;
    if Ends(s, target) {
      EndsSometime(s, target);
    } else {
      var i :| 0 <= i < |s.tickers| && s.tickers[i].isActive && s.tickers[i].next <= target
          && s.tickers[i].interval <= 0;
      assert Stuck(s, target, i);
      forall n: nat ensures Dues(FireSome(s, target, n), target) != [] {
        StuckForever(s, target, i, n);
      }
    }
  }

  // ------------------------------------------------------ order of firings

  lemma NothingEarlier(s: State, target: int)
    requires Dues(s, target) != []
    ensures var d := Earliest(Dues(s, target));
            && d in Dues(s, target) && d.at <= target
            && (forall t :: t in s.timers ==> t.at >= d.at)
            && (forall i :: 0 <= i < |s.tickers| && s.tickers[i].isActive ==> s.tickers[i].next >= d.at)
  {
    hide Earliest, TimerDues, TickerDues;
    var d := Earliest(Dues(s, target));
    EarliestLeast(Dues(s, target));
    InTimerDues(s.timers, target, d);
    InTickerDues(s.tickers, target, d);
    forall t | t in s.timers ensures t.at >= d.at {
      var i :| 0 <= i < |s.timers| && s.timers[i] == t;
      InTimerDues(s.timers, target, Due(t.at, FromTimer(t.id)));
    }
    forall i | 0 <= i < |s.tickers| && s.tickers[i].isActive ensures s.tickers[i].next >= d.at {
      InTickerDues(s.tickers, target, Due(s.tickers[i].next, FromTicker(i)));
    }
  }

  lemma FireKeepsUpToDate(s: State, target: int)
    requires Ends(s, target) && UpToDate(s) && Dues(s, target) != []
    ensures var d := Earliest(Dues(s, target));
            && s.now <= d.at <= target
            && (d.source.FromTicker? ==> d.source.index < |s.tickers|)
            && UpToDate(Fire(s, d))
  {
    hide Earliest, TimerDues, TickerDues;
    var d := Earliest(Dues(s, target));
    FireProgress(s, target);
    NothingEarlier(s, target);
    InTimerDues(s.timers, target, d);
    InTickerDues(s.tickers, target, d);
    forall i | 0 <= i < |Fire(s, d).timers| ensures Fire(s, d).timers[i].at >= d.at {
      assert Fire(s, d).timers[i] in Fire(s, d).timers;
    }
  }

  predicate TimesWithin(ds: seq<Due>, from: int, target: int) {
    && (forall i :: 0 <= i < |ds| ==> from <= ds[i].at <= target)
    && (forall i, j :: 0 <= i < j < |ds| ==> ds[i].at <= ds[j].at)
  }

  /** Advance fires in non-decreasing time order, never before now nor after the target,
      and leaves nothing overdue. */
  lemma {:induction false} FiresInOrder(s: State, target: int)
    requires Ends(s, target) && UpToDate(s) && s.now <= target
    ensures TimesWithin(Firings(s, target), s.now, target)
    ensures UpToDate(AdvanceTo(s, target)) && AdvanceTo(s, target).now == target
    ensures Dues(AdvanceTo(s, target), target) == []
    decreases Measure(s, target)
  {
    hide Earliest, TimerDues, TickerDues, Fire;
    if Dues(s, target) == [] {
      NothingDue(s, target);
    } else {
      FireProgress(s, target);
      FireKeepsUpToDate(s, target);
      var d := Earliest(Dues(s, target));
      FireNow(s, d);
      FiresInOrder(Fire(s, d), target);
    }
  }

  lemma FireNow(s: State, d: Due)
    requires d.source.FromTicker? ==> d.source.index < |s.tickers|
    ensures Fire(s, d).now == d.at
  {
  }

  lemma NothingDue(s: State, target: int)
    requires Dues(s, target) == []
    ensures UpToDate(s.(now := target))
    ensures forall i :: 0 <= i < |s.timers| ==> s.timers[i].at > target
    ensures forall i :: 0 <= i < |s.tickers| && s.tickers[i].isActive ==> s.tickers[i].next > target
  {
    hide TimerDues, TickerDues;
    forall i | 0 <= i < |s.timers| ensures s.timers[i].at > target {
      InTimerDues(s.timers, target, Due(s.timers[i].at, FromTimer(s.timers[i].id)));
    }
    forall i | 0 <= i < |s.tickers| && s.tickers[i].isActive ensures s.tickers[i].next > target {
      InTickerDues(s.tickers, target, Due(s.tickers[i].next, FromTicker(i)));
    }
  }

  // ------------------------------------------------ what each source fires

  /** The times at which one source fires. */
  function TimesOf(ds: seq<Due>, source: Source): seq<int> {
    if ds == [] then []
    else (if ds[0].source == source then [ds[0].at] else []) + TimesOf(ds[1..], source)
  }

  /** first, first + interval, ... up to the target. */
  function Progression(first: int, interval: int, target: int): seq<int>
    requires interval > 0
    decreases target - first
  {
    if first > target then [] else [first] + Progression(first + interval, interval, target)
  }

  lemma {:induction false} ProgressionAt(first: int, interval: int, target: int, k: nat)
    requires interval > 0
    ensures k < |Progression(first, interval, target)| <==> first + k * interval <= target
    ensures k < |Progression(first, interval, target)| ==>
        Progression(first, interval, target)[k] == first + k * interval
    decreases k
  {
    if k > 0 {
      ProgressionAt(first + interval, interval, target, k - 1);
      assert first + interval + (k - 1) * interval == first + k * interval;
      if first > target {
        assert k * interval >= interval;
      }
    }
  }

  lemma TimesOfCons(d: Due, ds: seq<Due>, source: Source)
    ensures TimesOf([d] + ds, source) == (if d.source == source then [d.at] else []) + TimesOf(ds, source)
  {
    assert ([d] + ds)[1..] == ds;
  }

  /** What is still to come from a ticker. */
  function Schedule(t: Ticker, target: int): seq<int>
    requires t.isActive && t.next <= target ==> t.interval > 0
  {
    if t.isActive && t.next <= target then Progression(t.next, t.interval, target) else []
  }

  /** Each active ticker fires once per elapsed period, at exactly those times; a stopped
      one never fires. */
  lemma {:induction false} TickerFirings(s: State, target: int, i: nat)
    requires Ends(s, target) && i < |s.tickers|
    ensures TimesOf(Firings(s, target), FromTicker(i)) == Schedule(s.tickers[i], target)
    decreases Measure(s, target)
  {
    assert TimesOf([], FromTicker(i)) == [];
    hide Earliest, TimerDues, TickerDues, Dues, Fire, TimesOf, Measure, Schedule;
    if Dues(s, target) == [] {
      NothingFired(s, target, i);
    } else {
      FireProgress(s, target);
      var d := Earliest(Dues(s, target));
      TickerStep(s, d, target, i);
      TickerFirings(Fire(s, d), target, i);
      TimesOfCons(d, Firings(Fire(s, d), target), FromTicker(i));
    }
  }

  lemma NothingFired(s: State, target: int, i: nat)
    requires Ends(s, target) && i < |s.tickers| && Dues(s, target) == []
    ensures Schedule(s.tickers[i], target) == []
  {
    hide Dues;
    NothingDue(s, target);
  }

  lemma TickerStep(s: State, d: Due, target: int, i: nat)
    requires Ends(s, target) && i < |s.tickers| && d in Dues(s, target)
    requires d.source.FromTicker? ==> d.source.index < |s.tickers|
    ensures |Fire(s, d).tickers| == |s.tickers| && Ends(Fire(s, d), target)
    ensures Schedule(s.tickers[i], target)
         == (if d.source == FromTicker(i) then [d.at] else []) + Schedule(Fire(s, d).tickers[i], target)
  {
    hide TimerDues, TickerDues;
    FireEnds(s, d, target, target);
    InTimerDues(s.timers, target, d);
    InTickerDues(s.tickers, target, d);
    var t := s.tickers[i];
    if d.source == FromTicker(i) && t.next + t.interval > target {
      assert Progression(t.next + t.interval, t.interval, target) == [];
    }
  }

  /** Each due timer fires exactly once, at its time, and is gone; the others stay. */
  lemma {:induction false} TimerFirings(s: State, target: int, id: nat)
    requires Ends(s, target)
    ensures forall t :: t in s.timers && t.id == id ==>
              TimesOf(Firings(s, target), FromTimer(id)) == if t.at <= target then [t.at] else []
    ensures (forall t :: t in s.timers ==> t.id != id) ==> TimesOf(Firings(s, target), FromTimer(id)) == []
    ensures forall t :: t in AdvanceTo(s, target).timers <==> t in s.timers && t.at > target
    decreases Measure(s, target)
  {
    hide Earliest, TimerDues, TickerDues;
    if Dues(s, target) == [] {
      NothingDue(s, target);
    } else {
      FireProgress(s, target);
      var d := Earliest(Dues(s, target));
      InTimerDues(s.timers, target, d);
      InTickerDues(s.tickers, target, d);
      var s1 := Fire(s, d);
      TimerFirings(s1, target, id);
      TimesOfCons(d, Firings(s1, target), FromTimer(id));
      FireTimers(s, d, target);
    }
  }

  lemma FireTimers(s: State, d: Due, target: int)
    requires Ends(s, target) && d in Dues(s, target)
    requires d.source.FromTicker? ==> d.source.index < |s.tickers|
    ensures forall t :: t in Fire(s, d).timers ==> t in s.timers
    ensures forall t :: t in s.timers && t !in Fire(s, d).timers ==> d == Due(t.at, FromTimer(t.id)) && t.at <= target
    ensures d.source.FromTimer? ==> d.at <= target && forall t :: t in Fire(s, d).timers ==> t.id != d.source.id
  {
    hide TimerDues, TickerDues;
    InTimerDues(s.timers, target, d);
    InTickerDues(s.tickers, target, d);
    if d.source.FromTimer? {
      var i :| 0 <= i < |s.timers| && s.timers[i].at <= target && d == Due(s.timers[i].at, FromTimer(s.timers[i].id));
      forall t | t in s.timers && t.id == d.source.id ensures t == s.timers[i] {
        var j :| 0 <= j < |s.timers| && s.timers[j] == t;
      }
    }
  }

  // ------------------------------------------------------ what is received

  lemma SendNext(inbox: map<Source, int>, d: Due, source: Source)
    ensures var next := Send(inbox, d.source, d.at);
            && (source in next <==> source in inbox || source == d.source)
            && (source in inbox ==> next[source] == inbox[source])
            && (source !in inbox && source == d.source ==> next[source] == d.at)
  {
  }

  /** What a channel holds after Advance: an unread notification stays as it was; an empty
      channel holds the first firing of its source, if there is one, and nothing else. */
  lemma {:induction false} InboxAfter(s: State, target: int, source: Source)
    requires Ends(s, target)
    ensures var inbox, times := AdvanceTo(s, target).inbox, TimesOf(Firings(s, target), source);
            && (source in inbox <==> source in s.inbox || times != [])
            && (source in s.inbox ==> inbox[source] == s.inbox[source])
            && (source !in s.inbox && times != [] ==> inbox[source] == times[0])
    decreases Measure(s, target)
  {
    hide Earliest, Dues, Measure, Ends;
    if Dues(s, target) != [] {
      FireProgress(s, target);
      var d := Earliest(Dues(s, target));
      InboxAfter(Fire(s, d), target, source);
      TimesOfCons(d, Firings(Fire(s, d), target), source);
      SendNext(s.inbox, d, source);
    }
  }

  // ------------------------------------------------- firings of one moment

  predicate SortedIds(timers: seq<Timer>) {
    forall i, j :: 0 <= i < j < |timers| ==> timers[i].id < timers[j].id
  }

  /** Timers come before tickers, older timers before newer ones, and likewise tickers. */
  predicate ComesFirst(a: Source, b: Source) {
    match (a, b)
    case (FromTimer(i), FromTimer(j)) => i < j
    case (FromTimer(_), FromTicker(_)) => true
    case (FromTicker(_), FromTimer(_)) => false
    case (FromTicker(i), FromTicker(j)) => i < j
  }

  predicate InCollectingOrder(ds: seq<Due>) {
    forall i, j :: 0 <= i < j < |ds| ==> ComesFirst(ds[i].source, ds[j].source)
  }

  lemma {:induction false} TimersInOrder(timers: seq<Timer>, target: int)
    requires SortedIds(timers)
    ensures InCollectingOrder(TimerDues(timers, target))
  {
    if timers != [] {
      var n := |timers| - 1;
      var before := TimerDues(timers[..n], target);
      TimersInOrder(timers[..n], target);
      forall i | 0 <= i < |before| ensures before[i].source.FromTimer? && before[i].source.id < timers[n].id {
        InTimerDues(timers[..n], target, before[i]);
      }
    }
  }

  lemma {:induction false} TickersInOrder(tickers: seq<Ticker>, target: int)
    ensures InCollectingOrder(TickerDues(tickers, target))
  {
    if tickers != [] {
      var n := |tickers| - 1;
      var before := TickerDues(tickers[..n], target);
      TickersInOrder(tickers[..n], target);
      forall i | 0 <= i < |before| ensures before[i].source.FromTicker? && before[i].source.index < n {
        InTickerDues(tickers[..n], target, before[i]);
      }
    }
  }

  lemma DuesInOrder(s: State, target: int)
    requires SortedIds(s.timers)
    ensures InCollectingOrder(Dues(s, target))
  {
    hide TimerDues, TickerDues;
    TimersInOrder(s.timers, target);
    TickersInOrder(s.tickers, target);
    forall d ensures d in TimerDues(s.timers, target) ==> d.source.FromTimer? {
      InTimerDues(s.timers, target, d);
    }
    forall d ensures d in TickerDues(s.tickers, target) ==> d.source.FromTicker? {
      InTickerDues(s.tickers, target, d);
    }
  }

  lemma NotBeforeFirst(ds: seq<Due>, i: int, j: int)
    requires FirstLeast(ds, i) && 0 <= j < |ds| && ds[j].at == ds[i].at
    ensures i <= j
  {
  }

  lemma InOrderAt(ds: seq<Due>, i: int, j: int)
    requires InCollectingOrder(ds) && 0 <= i <= j < |ds|
    ensures ds[i] == ds[j] || ComesFirst(ds[i].source, ds[j].source)
  {
  }

  lemma EarliestAt(ds: seq<Due>) returns (i: int)
    requires ds != []
    ensures 0 <= i < |ds| && FirstLeast(ds, i) && ds[i] == Earliest(ds)
  {
    hide Earliest;
    EarliestIsFirstLeast(ds);
    i :| FirstLeast(ds, i) && ds[i] == Earliest(ds);
  }

  /** Of the notifications due at the same moment the first source goes first. */
  lemma EarliestOfTies(s: State, target: int, e: Due)
    requires SortedIds(s.timers) && e in Dues(s, target) && e.at == Earliest(Dues(s, target)).at
    ensures e == Earliest(Dues(s, target)) || ComesFirst(Earliest(Dues(s, target)).source, e.source)
  {
    hide *;
    var ds := Dues(s, target);
    DuesInOrder(s, target);
    var i := EarliestAt(ds);
    var j :| 0 <= j < |ds| && ds[j] == e;
    NotBeforeFirst(ds, i, j);
    InOrderAt(ds, i, j);
  }

  lemma {:induction false} InTimes(ds: seq<Due>, e: Due)
    ensures e in ds ==> e.at in TimesOf(ds, e.source)
  {
    if ds != [] {
      InTimes(ds[1..], e);
      assert ds == [ds[0]] + ds[1..];
    }
  }

  /** What fires at the present earliest moment is due already. */
  lemma FiresWhenDue(s: State, target: int, e: Due)
    requires Ends(s, target) && e in Firings(s, target)
    requires forall d :: d in Dues(s, target) ==> e.at <= d.at
    ensures e in Dues(s, target)
  {
    hide TimerDues, TickerDues, Firings, AdvanceTo, Progression;
    InTimes(Firings(s, target), e);
    match e.source
    case FromTimer(id) =>
      TimerFirings(s, target, id);
      if t :| t in s.timers && t.id == id {
        InTimerDues(s.timers, target, e);
      }
    case FromTicker(i) =>
      KnownTickers(s, target, e);
      TickerFirings(s, target, i);
      InTickerDues(s.tickers, target, Due(s.tickers[i].next, FromTicker(i)));
      if s.tickers[i].isActive && s.tickers[i].next <= target {
        ProgressionStarts(s.tickers[i].next, s.tickers[i].interval, target, e.at);
      }
  }

  lemma {:induction false} KnownTickers(s: State, target: int, e: Due)
    requires Ends(s, target) && e in Firings(s, target) && e.source.FromTicker?
    ensures e.source.index < |s.tickers|
    decreases Measure(s, target)
  {
    hide Earliest, Dues, Measure, Ends;
    if Dues(s, target) != [] {
      FireProgress(s, target);
      var d := Earliest(Dues(s, target));
      if e != d {
        KnownTickers(Fire(s, d), target, e);
      }
    }
  }

  lemma {:induction false} ProgressionStarts(first: int, interval: int, target: int, t: int)
    requires interval > 0 && t in Progression(first, interval, target)
    ensures t >= first && (t > first ==> t >= first + interval)
    decreases target - first
  {
    if t != first {
      ProgressionStarts(first + interval, interval, target, t);
    }
  }

  predicate TiesInOrder(ds: seq<Due>) {
    forall i, j :: 0 <= i < j < |ds| && ds[i].at == ds[j].at ==> ComesFirst(ds[i].source, ds[j].source)
  }

  lemma FireKeepsSorted(s: State, d: Due)
    requires SortedIds(s.timers) && (d.source.FromTicker? ==> d.source.index < |s.tickers|)
    ensures SortedIds(Fire(s, d).timers)
  {
    if d.source.FromTimer? {
      FilterSorted(s.timers, d.source.id);
    }
  }

  lemma SortedSnoc(timers: seq<Timer>, t: Timer)
    requires SortedIds(timers) && forall x :: x in timers ==> x.id < t.id
    ensures SortedIds(timers + [t])
  {
  }

  lemma SortedPrefix(timers: seq<Timer>, n: nat)
    requires SortedIds(timers) && n < |timers|
    ensures SortedIds(timers[..n]) && forall x :: x in timers[..n] ==> x.id < timers[n].id
  {
  }

  lemma {:induction false} FilterSorted(timers: seq<Timer>, id: nat)
    requires SortedIds(timers)
    ensures SortedIds(FilterOut(timers, id))
  {
    if timers != [] {
      hide SortedIds;
      var n := |timers| - 1;
      SortedPrefix(timers, n);
      FilterSorted(timers[..n], id);
      var r := FilterOut(timers[..n], id);
      SortedSnoc(r, timers[n]);
      assert r + [] == r;
    } else {
      assert FilterOut(timers, id) == timers;
    }
  }

  /** Nothing that fired fires again at the same moment. */
  lemma LaterOrOther(s: State, target: int, e: Due)
    requires Ends(s, target) && Dues(s, target) != []
    requires var d := Earliest(Dues(s, target));
             d.source.FromTicker? ==> d.source.index < |s.tickers|
    requires Ends(Fire(s, Earliest(Dues(s, target))), target)
    requires e in Firings(Fire(s, Earliest(Dues(s, target))), target) && e.at == Earliest(Dues(s, target)).at
    ensures e in Dues(s, target) && e.source != Earliest(Dues(s, target)).source
  {
    hide Earliest, TimerDues, TickerDues, Firings;
    var d := Earliest(Dues(s, target));
    var s1 := Fire(s, d);
    NothingEarlier(s, target);
    InTimerDues(s.timers, target, d);
    InTickerDues(s.tickers, target, d);
    forall x | x in Dues(s1, target) ensures x.at >= d.at {
      InTimerDues(s1.timers, target, x);
      InTickerDues(s1.tickers, target, x);
    }
    FiresWhenDue(s1, target, e);
    InTimerDues(s1.timers, target, e);
    InTickerDues(s1.tickers, target, e);
    InTimerDues(s.timers, target, e);
    InTickerDues(s.tickers, target, e);
  }

  /** Notifications of the same moment fire timers first, in the order in which they were
      asked for, and then tickers, in the order in which they were made. */
  lemma {:induction false} FiresTiesInOrder(s: State, target: int)
    requires Ends(s, target) && SortedIds(s.timers)
    ensures TiesInOrder(Firings(s, target))
    decreases Measure(s, target)
  {
    hide Earliest, Dues, Measure, Ends, Fire, ComesFirst, SortedIds;
    if Dues(s, target) != [] {
      FireProgress(s, target);
      var d := Earliest(Dues(s, target));
      var rest := Firings(Fire(s, d), target);
      FireKeepsSorted(s, d);
      FiresTiesInOrder(Fire(s, d), target);
      forall j | 0 <= j < |rest| && rest[j].at == d.at ensures ComesFirst(d.source, rest[j].source) {
        LaterOrOther(s, target, rest[j]);
        EarliestOfTies(s, target, rest[j]);
      }
    }
  }

  // ----------------------------------------------------------- additivity

  function UpTo(ds: seq<Due>, t: int): seq<Due> {
    if ds == [] then []
    else
      var n := |ds| - 1;
      UpTo(ds[..n], t) + if ds[n].at <= t then [ds[n]] else []
  }

  lemma {:induction false} UpToConcat(a: seq<Due>, b: seq<Due>, t: int)
    ensures UpTo(a + b, t) == UpTo(a, t) + UpTo(b, t)
    decreases |b|
  {
    if b == [] {
      assert a + b == a;
    } else {
      var n := |b| - 1;
      assert (a + b)[..|a| + n] == a + b[..n];
      UpToConcat(a, b[..n], t);
    }
  }

  lemma {:induction false} UpToTimers(timers: seq<Timer>, t1: int, t2: int)
    requires t1 <= t2
    ensures TimerDues(timers, t1) == UpTo(TimerDues(timers, t2), t1)
  {
    if timers != [] {
      var n := |timers| - 1;
      var d := Due(timers[n].at, FromTimer(timers[n].id));
      UpToTimers(timers[..n], t1, t2);
      UpToConcat(TimerDues(timers[..n], t2), [d], t1);
      UpToOne(d, t1);
      assert TimerDues(timers[..n], t2) + [] == TimerDues(timers[..n], t2);
    }
  }

  lemma UpToOne(d: Due, t: int)
    ensures UpTo([d], t) == if d.at <= t then [d] else []
  {
    assert [d][..0] == [];
  }

  lemma {:induction false} UpToTickers(tickers: seq<Ticker>, t1: int, t2: int)
    requires t1 <= t2
    ensures TickerDues(tickers, t1) == UpTo(TickerDues(tickers, t2), t1)
  {
    if tickers != [] {
      var n := |tickers| - 1;
      var d := Due(tickers[n].next, FromTicker(n));
      UpToTickers(tickers[..n], t1, t2);
      UpToConcat(TickerDues(tickers[..n], t2), [d], t1);
      UpToOne(d, t1);
      assert TickerDues(tickers[..n], t2) + [] == TickerDues(tickers[..n], t2);
    }
  }

  lemma {:induction false} UpToIn(ds: seq<Due>, t: int)
    ensures forall d :: d in UpTo(ds, t) <==> d in ds && d.at <= t
  {
    if ds != [] {
      UpToIn(ds[..|ds| - 1], t);
      assert ds == ds[..|ds| - 1] + [ds[|ds| - 1]];
    }
  }

  lemma EarliestCons(d: Due, ds: seq<Due>)
    ensures Earliest([d] + ds) == if ds == [] || d.at <= Earliest(ds).at then d else Earliest(ds)
  {
    assert ([d] + ds)[1..] == ds;
  }

  lemma {:induction false} EarliestUpTo(ds: seq<Due>, t: int)
    requires UpTo(ds, t) != []
    ensures ds != [] && Earliest(ds) == Earliest(UpTo(ds, t))
    decreases |ds|
  {
    assert UpTo([], t) == [];
    hide UpTo, Earliest;
    if ds != [] {
      var d, rest := ds[0], UpTo(ds[1..], t);
      assert ds == [d] + ds[1..];
      UpToConcat([d], ds[1..], t);
      UpToOne(d, t);
      UpToIn(ds[1..], t);
      EarliestCons(d, ds[1..]);
      EarliestCons(d, rest);
      assert [] + rest == rest;
      if rest != [] {
        EarliestUpTo(ds[1..], t);
      }
    }
  }

  lemma DuesShrink(s: State, t1: int, t2: int)
    requires t1 <= t2
    ensures Dues(s, t1) == UpTo(Dues(s, t2), t1)
    ensures Dues(s, t1) != [] ==> Dues(s, t2) != [] && Earliest(Dues(s, t2)) == Earliest(Dues(s, t1))
  {
    hide UpTo, TimerDues, TickerDues, Earliest;
    UpToTimers(s.timers, t1, t2);
    UpToTickers(s.tickers, t1, t2);
    UpToConcat(TimerDues(s.timers, t2), TickerDues(s.tickers, t2), t1);
    if Dues(s, t1) != [] {
      EarliestUpTo(Dues(s, t2), t1);
    }
  }

  lemma NowIsForgotten(s: State, now: int, target: int)
    requires Ends(s, target)
    ensures AdvanceTo(s.(now := now), target) == AdvanceTo(s, target)
    ensures Firings(s.(now := now), target) == Firings(s, target)
  {
    hide TimerDues, TickerDues, Earliest;
    if Dues(s, target) != [] {
      FireProgress(s, target);
      assert Fire(s.(now := now), Earliest(Dues(s, target))) == Fire(s, Earliest(Dues(s, target)));
    }
  }

  /** Advancing in two steps is advancing in one: same firings and same state. */
  lemma {:induction false} Additive(s: State, t1: int, t2: int)
    requires Ends(s, t2) && t1 <= t2
    ensures Ends(AdvanceTo(s, t1), t2)
    ensures AdvanceTo(AdvanceTo(s, t1), t2) == AdvanceTo(s, t2)
    ensures Firings(s, t1) + Firings(AdvanceTo(s, t1), t2) == Firings(s, t2)
    decreases Measure(s, t1)
  {
    hide TimerDues, TickerDues, Earliest, Fire;
    AdvanceKeepsEnds(s, t1, t2);
    DuesShrink(s, t1, t2);
    if Dues(s, t1) == [] {
      NowIsForgotten(s, t1, t2);
    } else {
      var d := Earliest(Dues(s, t1));
      FireProgress(s, t1);
      FireProgress(s, t2);
      Additive(Fire(s, d), t1, t2);
      assert [d] + Firings(Fire(s, d), t1) + Firings(AdvanceTo(s, t1), t2)
          == [d] + (Firings(Fire(s, d), t1) + Firings(AdvanceTo(s, t1), t2));
    }
  }

  // ------------------------------------------------------------ the object

  predicate IdsBelow(timers: seq<Timer>, made: nat) {
    SortedIds(timers) && forall i :: 0 <= i < |timers| ==> timers[i].id < made
  }

  lemma FilterBelow(timers: seq<Timer>, id: nat, made: nat)
    requires IdsBelow(timers, made)
    ensures IdsBelow(FilterOut(timers, id), made)
  {
    FilterSorted(timers, id);
    forall i | 0 <= i < |FilterOut(timers, id)| ensures FilterOut(timers, id)[i].id < made {
      assert FilterOut(timers, id)[i] in timers;
    }
  }

  /** The front of the buffer holds what is kept of the timers read so far; the rest is
      still unread. */
  predicate Compacted(timers: seq<Timer>, id: nat, buffer: seq<Timer>, kept: int, i: int) {
    && 0 <= kept <= i <= |buffer| == |timers|
    && buffer[..kept] == FilterOut(timers[..i], id)
    && buffer[i..] == timers[i..]
  }

  function CompactNext(id: nat, buffer: seq<Timer>, kept: nat, i: nat): seq<Timer>
    requires kept <= i < |buffer|
  {
    if buffer[i].id != id then buffer[kept := buffer[i]] else buffer
  }

  lemma CompactStep(timers: seq<Timer>, id: nat, buffer: seq<Timer>, kept: nat, i: nat)
    requires Compacted(timers, id, buffer, kept, i) && i < |timers|
    ensures Compacted(timers, id, CompactNext(id, buffer, kept, i),
                      if buffer[i].id != id then kept + 1 else kept, i + 1)
  {
    hide FilterOut;
    var next := CompactNext(id, buffer, kept, i);
    FilterNext(timers, i, id);
    assert buffer[i..][0] == timers[i..][0];
    assert next[i + 1..] == timers[i + 1..] by {
      assert buffer[i..][1..] == buffer[i + 1..] && timers[i..][1..] == timers[i + 1..];
      assert next[i + 1..] == buffer[i + 1..];
    }
    if buffer[i].id != id {
      assert next[..kept + 1] == buffer[..kept] + [buffer[i]];
    }
  }

  lemma CompactStart(timers: seq<Timer>, id: nat)
    ensures Compacted(timers, id, timers, 0, 0)
  {
  }

  lemma CompactEnd(timers: seq<Timer>, id: nat, buffer: seq<Timer>, kept: nat)
    requires Compacted(timers, id, buffer, kept, |timers|)
    ensures buffer[..kept] == FilterOut(timers, id)
  {
    assert timers[..|timers|] == timers;
  }

  /** Removes a fired timer.  Kept timers are written over the front of the buffer that
      is being read. */
  method WithoutTimer(timers: seq<Timer>, id: nat) returns (remaining: seq<Timer>)
    ensures remaining == FilterOut(timers, id)
  {
    hide FilterOut;
    CompactStart(timers, id);
    var buffer := timers;
    var kept := 0;
    for i := 0 to |timers|
      invariant Compacted(timers, id, buffer, kept, i)
    {
      CompactStep(timers, id, buffer, kept, i);
      var other := buffer[i];
      if other.id != id {
        buffer := buffer[kept := other];
        kept := kept + 1;
      }
    }
    CompactEnd(timers, id, buffer, kept);
    remaining := buffer[..kept];
  }

  class Clock {
    var now: int
    var timers: seq<Timer>
    var tickers: seq<Ticker>
    var inbox: map<Source, int>
    var made: nat
    ghost var log: seq<Due>

    ghost function Value(): State
      reads this
    {
      State(now, timers, tickers, inbox)
    }

    ghost predicate Ok()
      reads this
    {
      IdsBelow(timers, made)
    }

    constructor (start: int)
      ensures Ok() && Value() == State(start, [], [], map[]) && log == []
      ensures UpToDate(Value())
    {
      now := start;
      timers := [];
      tickers := [];
      inbox := map[];
      made := 0;
      log := [];
    }

    method After(d: int) returns (source: Source)
      requires Ok()
      modifies this
      ensures source.FromTimer? && Ok()
      ensures Value() == old(Value()).(timers := old(timers) + [Timer(source.id, old(now) + d)])
      ensures forall t :: t in old(timers) ==> t.id != source.id
      ensures d >= 0 && UpToDate(old(Value())) ==> UpToDate(Value())
      ensures log == old(log)
    {
      source := FromTimer(made);
      timers := timers + [Timer(made, now + d)];
      made := made + 1;
    }

    method NewTicker(d: int) returns (source: Source)
      requires Ok()
      modifies this
      ensures Ok() && Value() == old(Value()).(tickers := old(tickers) + [Ticker(d, old(now) + d, true)])
      ensures source == FromTicker(|old(tickers)|) && log == old(log)
      ensures d >= 0 && UpToDate(old(Value())) ==> UpToDate(Value())
    {
      source := FromTicker(|tickers|);
      tickers := tickers + [Ticker(d, now + d, true)];
    }

    method Stop(i: nat)
      requires Ok() && i < |tickers|
      modifies this
      ensures Ok() && Value() == old(Value()).(tickers := old(tickers)[i := old(tickers)[i].(isActive := false)])
      ensures log == old(log)
      ensures UpToDate(old(Value())) ==> UpToDate(Value())
    {
      tickers := tickers[i := tickers[i].(isActive := false)];
    }

    /** Collects what is due, timers before tickers, and picks the head of a stable sort
        by time. */
    method EarliestDue(target: int) returns (found: bool, d: Due)
      ensures found == (Dues(Value(), target) != [])
      ensures found ==> d == Earliest(Dues(Value(), target))
    {
      var dues: seq<Due> := [];
      var i := 0;
      while i < |timers|
        invariant 0 <= i <= |timers| && dues == TimerDues(timers[..i], target)
      {
        assert timers[..i + 1][..i] == timers[..i];
        if timers[i].at <= target {
          dues := dues + [Due(timers[i].at, FromTimer(timers[i].id))];
        }
        i := i + 1;
      }
      assert timers[..i] == timers;
      var j := 0;
      while j < |tickers|
        invariant 0 <= j <= |tickers| && dues == TimerDues(timers, target) + TickerDues(tickers[..j], target)
      {
        assert tickers[..j + 1][..j] == tickers[..j];
        if tickers[j].isActive && tickers[j].next <= target {
          dues := dues + [Due(tickers[j].next, FromTicker(j))];
        }
        j := j + 1;
      }
      assert tickers[..j] == tickers;
      found := dues != [];
      d := if found then Earliest(dues) else Due(target, FromTimer(0));
    }

    method SendWithoutWaiting(source: Source, at: int)
      modifies this`inbox
      ensures inbox == Send(old(inbox), source, at)
    {
      if source !in inbox {
        inbox := inbox[source := at];
      }
    }

    method FireTimer(id: nat)
      modifies this`inbox, this`timers
      ensures inbox == Send(old(inbox), FromTimer(id), now)
      ensures timers == FilterOut(old(timers), id)
    {
      SendWithoutWaiting(FromTimer(id), now);
      timers := WithoutTimer(timers, id);
    }

    method FireTicker(i: nat)
      requires i < |tickers|
      modifies this`inbox, this`tickers
      ensures inbox == Send(old(inbox), FromTicker(i), now)
      ensures tickers == old(tickers)[i := old(tickers)[i].(next := old(tickers)[i].next + old(tickers)[i].interval)]
    {
      SendWithoutWaiting(FromTicker(i), now);
      tickers := tickers[i := tickers[i].(next := tickers[i].next + tickers[i].interval)];
    }

    method FireDue(d: Due)
      requires Ok() && (d.source.FromTicker? ==> d.source.index < |tickers|)
      modifies this`now, this`inbox, this`timers, this`tickers
      ensures Ok() && Value() == Fire(old(Value()), d)
    {
      hide IdsBelow, FilterOut;
      now := d.at;
      match d.source {
        case FromTimer(id) =>
          FilterBelow(timers, id, made);
          FireTimer(id);
        case FromTicker(i) => FireTicker(i);
      }
    }

    /** Moves the clock, firing everything due on the way. */
    method Advance(d: int)
      requires Ok() && Ends(Value(), now + d)
      modifies this
      ensures Ok() && Value() == AdvanceTo(old(Value()), old(now) + d)
      ensures log == old(log) + Firings(old(Value()), old(now) + d)
      ensures d >= 0 && UpToDate(old(Value())) ==> UpToDate(Value())
    {
      hide TimerDues, TickerDues, Earliest, Fire, Dues, Measure, Ends;
      ghost var s := Value();
      if d >= 0 && UpToDate(s) {
        FiresInOrder(s, now + d);
      }
      var target := now + d;
      while true
        invariant Ok() && Ends(Value(), target)
        invariant AdvanceTo(Value(), target) == AdvanceTo(s, target)
        invariant log + Firings(Value(), target) == old(log) + Firings(s, target)
        decreases Measure(Value(), target)
      {
        var found, due := EarliestDue(target);
        if !found {
          break;
        }
        ghost var v, before := Value(), log;
        FireProgress(v, target);
        FireDue(due);
        log := log + [due];
        assert before + ([due] + Firings(Value(), target)) == log + Firings(Value(), target);
      }
      now := target;
    }
  }
}
