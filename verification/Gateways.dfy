/** Gateway purity: the held identifier vouches for every waiting entry. */
module Gateways {
  import opened Bytes
  import opened Member
  import opened SortedSet
  import opened Waiting
  import opened Protocol
  import opened RedisQueue
  import opened Riders

  /** A held identifier is the last accepted one and everyone waiting came under it; a
      pair popped under an identifier came under it too. */
  ghost predicate Vouched(w: World) {
    && (w.held.Some? ==> w.held.value != [] && w.held.value == w.last)
    && (forall p :: p in w.line && w.held.Some? ==> w.line[p].origin == w.held.value)
    && (forall id :: id in w.flights && w.flights[id].gateway != [] ==>
          w.flights[id].first.rider.origin == w.flights[id].second.rider.origin == w.flights[id].gateway)
  }

  lemma VouchedPop(w: World)
    requires Vouched(w)
    ensures Vouched(Act(w, Pop))
  {
    hide Close, IsFront, MemberOf;
    assert Slots(w.line).Keys == w.line.Keys;
  }

  lemma VouchedReturn(w: World, id: nat, net: Net)
    requires Vouched(w) && id in w.flights
    ensures Vouched(Return(w, id, net))
  {
    hide Close;
  }

  lemma VouchedAdmit(w: World, e: Event)
    requires Vouched(w) && Accepted(e)
    ensures Vouched(Admit(w, e.player, e.slot, e.gateway))
  {
    hide Close;
  }

  lemma VouchedStep(w: World, e: Event)
    requires Vouched(w)
    ensures Vouched(Step(w, e))
  {
    hide Close, TakePair, Return, Admit;
    if e.Pop? {
      VouchedPop(w);
    } else if Accepted(e) {
      VouchedAdmit(w, e);
    } else if e.WriteBack? && e.flight in w.flights {
      VouchedReturn(w, e.flight, e.net);
    }
  }

  /** Over every run, with evictions of either key and whatever fails. */
  lemma {:induction false} VouchedRun(events: seq<Event>)
    ensures Vouched(Run(events))
    decreases |events|
  {
    if events == [] {
      assert Run([]) == START;
    } else {
      hide Step, Vouched;
      VouchedRun(events[..|events| - 1]);
      VouchedStep(Run(events[..|events| - 1]), events[|events| - 1]);
    }
  }

  /** A pop that returns an identifier returns two entries enqueued under it, and a
      write-back under it puts them among entries of the same gateway only. */
  lemma PairsArePure(events: seq<Event>, id: nat, g: Text)
    requires id in Run(events).flights && Run(events).flights[id].gateway == g != []
    ensures Run(events).flights[id].first.rider.origin == Run(events).flights[id].second.rider.origin == g
    ensures Matches(Run(events), Run(events).flights[id]) ==>
              forall p :: p in PutBack(Run(events), Run(events).flights[id]).line ==>
                            PutBack(Run(events), Run(events).flights[id]).line[p].origin == g
  {
    hide Run, Close;
    VouchedRun(events);
  }

  // ------------------------------------------------ while nothing is held

  /** No pair popped without an identifier is written back without one after another
      Enqueue was accepted in between. */
  predicate Settled(w: World, e: Event) {
    e.WriteBack? && e.flight in w.flights && w.flights[e.flight].gateway == [] && w.held == None ==>
      w.flights[e.flight].epoch == w.tokens
  }

  /** Everyone waiting came from the last gateway, and so did every pair popped since. */
  ghost predicate Uniform(w: World) {
    && (forall p :: p in w.line ==> w.line[p].origin == w.last)
    && (forall id :: id in w.flights ==>
          && w.flights[id].epoch <= w.tokens
          && w.flights[id].first.rider.origin == w.flights[id].second.rider.origin
          && (w.flights[id].epoch == w.tokens ==> w.flights[id].first.rider.origin == w.last))
  }

  lemma UniformPop(w: World)
    requires Uniform(w)
    ensures Uniform(Act(w, Pop))
  {
    hide Close, IsFront, MemberOf;
    assert Slots(w.line).Keys == w.line.Keys;
  }

  lemma UniformReturn(w: World, id: nat, net: Net)
    requires Vouched(w) && Uniform(w) && id in w.flights
    requires w.flights[id].gateway == [] && w.held == None ==> w.flights[id].epoch == w.tokens
    ensures Uniform(Return(w, id, net))
  {
    hide Close;
  }

  lemma UniformAdmit(w: World, e: Event)
    requires Vouched(w) && Uniform(w) && Accepted(e)
    ensures Uniform(Admit(w, e.player, e.slot, e.gateway))
  {
    hide Close;
  }

  lemma UniformLeave(w: World, players: set<PlayerID>, fate: Fate)
    requires Uniform(w)
    ensures Uniform(Leave(w, players, fate))
  {
    hide Close;
  }

  lemma UniformStep(w: World, e: Event)
    requires Vouched(w) && Uniform(w) && Settled(w, e)
    ensures Uniform(Step(w, e))
  {
    hide Close, TakePair, Return, Admit, Leave, Slots, Front, Second;
    forall players, fate ensures Uniform(Leave(w, players, fate)) {
      UniformLeave(w, players, fate);
    }
    if e.Pop? {
      UniformPop(w);
    } else if Accepted(e) {
      UniformAdmit(w, e);
    } else if e.WriteBack? && e.flight in w.flights {
      UniformReturn(w, e.flight, e.net);
    }
  }

  ghost predicate AllSettled(events: seq<Event>) {
    forall i :: 0 <= i < |events| ==> Settled(Run(events[..i]), events[i])
  }

  /** Along such runs each popped pair has one gateway, identifier or not. */
  lemma {:induction false} UniformRun(events: seq<Event>)
    requires AllSettled(events)
    ensures Uniform(Run(events))
    decreases |events|
  {
    if events == [] {
      assert Run([]) == START;
    } else {
      hide Step, Vouched, Uniform, Settled, Run;
      var n := |events| - 1;
      RunNext(events, n);
      assert events[..n + 1] == events;
      forall i | 0 <= i < n ensures Settled(Run(events[..n][..i]), events[..n][i]) {
        assert events[..n][..i] == events[..i];
      }
      UniformRun(events[..n]);
      VouchedRun(events[..n]);
      UniformStep(Run(events[..n]), events[n]);
    }
  }

  lemma {:induction false} AcceptedSince(events: seq<Event>, id: nat)
    requires id in Run(events).flights && Run(events).flights[id].epoch < Run(events).tokens
    ensures exists i :: id < i < |events| && Accepted(events[i])
    decreases |events|
  {
    assert Run([]) == START;
    if events != [] {
      hide TakePair, Return, Close;
      var n := |events| - 1;
      var w := Run(events[..n]);
      FlightBefore(events[..n], events[n], id);
      if Accepted(events[n]) {
        assert id < n;
      } else {
        AcceptedSince(events[..n], id);
        var i :| id < i < n && Accepted(events[..n][i]);
        assert Accepted(events[i]);
      }
    }
  }

  lemma {:induction false} ClockCounts(events: seq<Event>)
    ensures Run(events).now == |events|
    ensures forall id :: id in Run(events).flights ==> id < |events|
    decreases |events|
  {
    if events == [] {
      assert Run([]) == START;
    } else {
      hide Close, Front, Second, Slots;
      ClockCounts(events[..|events| - 1]);
    }
  }

  lemma FlightBefore(events: seq<Event>, e: Event, id: nat)
    requires id in Step(Run(events), e).flights
    requires Step(Run(events), e).flights[id].epoch < Step(Run(events), e).tokens
    ensures id < |events|
    ensures id in Run(events).flights && Run(events).flights[id].epoch == Step(Run(events), e).flights[id].epoch
    ensures Step(Run(events), e).tokens == Run(events).tokens + (if Accepted(e) then 1 else 0)
  {
    hide Run, Close, Slots, Front, Second;
    ClockCounts(events);
  }

  /** An Enqueue was accepted after event `from`, and the identifier was evicted after the
      last accepted one. */
  ghost predicate EvictedAfterEnqueue(events: seq<Event>, from: nat) {
    exists i, j :: from < i < j < |events| && Accepted(events[i]) && IsLastWord(events, j)
  }

  /** Event j evicts the identifier and no later Enqueue is accepted. */
  predicate IsLastWord(events: seq<Event>, j: nat)
    requires j < |events|
  {
    events[j].EvictInstance? && forall k :: j < k < |events| ==> !Accepted(events[k])
  }

  lemma HeldBefore(w: World, e: Event)
    requires !e.EvictInstance? && Step(w, e).held == None
    ensures w.held == None && !Accepted(e)
  {
    hide Close, Slots, Front, Second;
  }

  lemma {:induction false} EvictedSince(events: seq<Event>, id: nat)
    requires id in Run(events).flights && Run(events).flights[id].epoch < Run(events).tokens
    requires Run(events).held == None
    ensures EvictedAfterEnqueue(events, id)
    decreases |events|
  {
    assert Run([]) == START;
    if events != [] {
      var n := |events| - 1;
      FlightBefore(events[..n], events[n], id);
      if events[n].EvictInstance? {
        AcceptedSince(events[..n], id);
        var i :| id < i < n && Accepted(events[..n][i]);
        assert Accepted(events[i]) && IsLastWord(events, n);
      } else {
        HeldBefore(Run(events[..n]), events[n]);
        EvictedSince(events[..n], id);
        var i, j :| id < i < j < n && Accepted(events[..n][i]) && IsLastWord(events[..n], j);
        assert Accepted(events[i]) && events[j].EvictInstance?;
        assert forall k :: j < k < n ==> events[k] == events[..n][k];
        assert IsLastWord(events, j);
      }
    }
  }

  lemma {:induction false} NothingHeldAfter(events: seq<Event>, j: nat)
    requires j < |events| && IsLastWord(events, j)
    ensures Run(events).held == None
    decreases |events|
  {
    var n := |events| - 1;
    if j < n {
      assert forall k :: j < k < n ==> events[..n][k] == events[k];
      NothingHeldAfter(events[..n], j);
      hide TakePair, Return, Close, Slots, Leave;
      KeepsNothingHeld(Run(events[..n]), events[n]);
    }
  }

  lemma KeepsNothingHeld(w: World, e: Event)
    requires w.held == None && !Accepted(e)
    ensures Step(w, e).held == None
  {
    hide Close, Slots, Front, Second;
  }

  lemma FlightOrigin(w: World, e: Event, id: nat)
    requires id in Step(w, e).flights
    ensures || (id in w.flights && Step(w, e).flights[id].epoch == w.flights[id].epoch)
            || (id == w.now && e.Pop? && Step(w, e).flights[id].epoch == w.tokens)
  {
    hide Close, Slots, Front, Second;
  }

  /** A pair's epoch is the number of Enqueues accepted before its pop. */
  lemma {:induction false} EpochAtPop(events: seq<Event>, id: nat)
    requires id in Run(events).flights
    ensures id < |events| && Run(events).flights[id].epoch == Run(events[..id]).tokens
    decreases |events|
  {
    assert Run([]) == START;
    if events != [] {
      hide Step;
      var n := |events| - 1;
      ClockCounts(events[..n]);
      FlightOrigin(Run(events[..n]), events[n], id);
      if id in Run(events[..n]).flights {
        EpochAtPop(events[..n], id);
        assert events[..n][..id] == events[..id];
      }
    }
  }

  lemma AcceptedCounts(events: seq<Event>, from: nat, i: nat)
    requires from < i < |events| && Accepted(events[i])
    ensures Run(events[..from]).tokens < Run(events).tokens
  {
    hide Act;
    RunNext(events, i);
    TokensStep(Run(events[..i]), events[i]);
    TokensGrow(events[..i], from);
    assert events[..i][..from] == events[..from];
    TokensGrow(events, i + 1);
  }

  /** Exactly when nothing is held although an Enqueue was accepted since a pair's pop: when
      the identifier was evicted after the last accepted Enqueue, and one was accepted since
      the pop. */
  lemma UnsettledExactly(events: seq<Event>, id: nat)
    requires id in Run(events).flights
    ensures Run(events).held == None && Run(events).flights[id].epoch < Run(events).tokens
       <==> EvictedAfterEnqueue(events, id)
  {
    hide Run, IsLastWord;
    if EvictedAfterEnqueue(events, id) {
      var i, j :| id < i < j < |events| && Accepted(events[i]) && IsLastWord(events, j);
      NothingHeldAfter(events, j);
      EpochAtPop(events, id);
      AcceptedCounts(events, id, i);
    }
    if Run(events).held == None && Run(events).flights[id].epoch < Run(events).tokens {
      EvictedSince(events, id);
    }
  }

  predicate EpochsPast(w: World) {
    forall id :: id in w.flights ==> w.flights[id].epoch <= w.tokens
  }

  lemma EpochStep(w: World, e: Event)
    requires EpochsPast(w)
    ensures EpochsPast(Step(w, e))
  {
    hide Close, Front, Second, Slots;
  }

  lemma {:induction false} EpochBound(events: seq<Event>)
    ensures EpochsPast(Run(events))
    decreases |events|
  {
    if events == [] {
      assert Run([]) == START;
    } else {
      hide Step, EpochsPast;
      EpochBound(events[..|events| - 1]);
      EpochStep(Run(events[..|events| - 1]), events[|events| - 1]);
    }
  }

  /** Event k writes back a pair popped without an identifier, an Enqueue was accepted since
      its pop, and the identifier was evicted after the last accepted one. */
  ghost predicate BothBetween(events: seq<Event>, k: nat)
    requires k < |events|
  {
    && events[k].WriteBack?
    && events[k].flight in Run(events[..k]).flights
    && Run(events[..k]).flights[events[k].flight].gateway == []
    && EvictedAfterEnqueue(events[..k], events[k].flight)
  }

  /** The claim that no Enqueue came in between a pop and a write-back that both find no
      identifier fails exactly for those events. */
  lemma SettledExactly(events: seq<Event>, k: nat)
    requires k < |events|
    ensures Settled(Run(events[..k]), events[k]) <==> !BothBetween(events, k)
  {
    hide Run, EvictedAfterEnqueue;
    var before, e := events[..k], events[k];
    if e.WriteBack? && e.flight in Run(before).flights {
      EpochBound(before);
      UnsettledExactly(before, e.flight);
    }
  }

  /** One gateway per pair and per queue, over every run in which no pair popped without an
      identifier comes back after both an Enqueue and a later eviction of the identifier. */
  lemma OneGateway(events: seq<Event>, id: nat)
    requires forall k :: 0 <= k < |events| ==> !BothBetween(events, k)
    ensures id in Run(events).flights ==>
              Run(events).flights[id].first.rider.origin == Run(events).flights[id].second.rider.origin
    ensures forall p, q :: p in Run(events).line && q in Run(events).line ==>
              Run(events).line[p].origin == Run(events).line[q].origin
  {
    hide Run, Settled, BothBetween;
    forall k | 0 <= k < |events| ensures Settled(Run(events[..k]), events[k]) {
      SettledExactly(events, k);
    }
    UniformRun(events);
  }

  // ------------------------------------------------- exactly when they mix

  /** Two waiting entries come from different gateways. */
  ghost predicate MixedLine(w: World) {
    exists p, q :: p in w.line && q in w.line && w.line[p].origin != w.line[q].origin
  }

  ghost predicate MixedFlight(w: World) {
    exists id :: id in w.flights && w.flights[id].first.rider.origin != w.flights[id].second.rider.origin
  }

  /** A write-back runs for a pair popped without an identifier, while none is held, and
      somebody else from another gateway is waiting. */
  ghost predicate Mixes(w: World, e: Event) {
    && e.WriteBack? && !e.net.NotSent?
    && e.flight in w.flights && w.flights[e.flight].failing
    && w.flights[e.flight].gateway == [] && w.held == None
    && exists p :: p in w.line && Stranger(w, w.flights[e.flight], p)
  }

  /** Not of the pair, and from another gateway than it. */
  predicate Stranger(w: World, f: Flight, p: PlayerID)
    requires p in w.line
  {
    p !in {f.first.player, f.second.player} && w.line[p].origin != f.second.rider.origin
  }

  ghost predicate Unmixed(w: World) { !MixedLine(w) && !MixedFlight(w) }

  lemma UnmixedPop(w: World)
    requires Unmixed(w)
    ensures Unmixed(Act(w, Pop))
  {
    hide Close, IsFront, MemberOf;
    assert Slots(w.line).Keys == w.line.Keys;
  }

  lemma UnmixedReturn(w: World, e: Event)
    requires Vouched(w) && Unmixed(w) && e.WriteBack? && !Mixes(w, e)
    ensures Unmixed(Act(w, e))
  {
    hide Close;
    var after := Act(w, e);
    if e.flight in w.flights && w.flights[e.flight].failing && !e.net.NotSent? && Matches(w, w.flights[e.flight]) {
      var f := w.flights[e.flight];
      assert f.first.rider.origin == f.second.rider.origin;
      forall p | p in after.line ensures after.line[p].origin == f.first.rider.origin {
        if p !in {f.first.player, f.second.player} {
          assert p in w.line && after.line[p] == w.line[p];
          assert w.held == None && f.gateway == [] ==> !Stranger(w, f, p);
        }
      }
    }
  }

  lemma UnmixedAdmit(w: World, e: Event)
    requires Vouched(w) && Unmixed(w) && Accepted(e)
    ensures Unmixed(Admit(w, e.player, e.slot, e.gateway))
  {
    hide Close;
  }

  lemma UnmixedStep(w: World, e: Event)
    requires Vouched(w) && Unmixed(w) && !Mixes(w, e)
    ensures Unmixed(Step(w, e))
  {
    hide Close, TakePair, Return, Admit, Mixes, Vouched;
    if e.Pop? {
      UnmixedPop(w);
    } else if Accepted(e) {
      UnmixedAdmit(w, e);
    } else if e.WriteBack? {
      UnmixedReturn(w, e);
    }
  }

  lemma MixesStep(w: World, e: Event)
    requires Mixes(w, e)
    ensures MixedLine(Step(w, e))
  {
    hide Close;
    var after, f := Step(w, e), w.flights[e.flight];
    var p :| p in w.line && Stranger(w, f, p);
    assert after.line[p] == w.line[p];
    assert after.line[f.second.player] == f.second.rider;
  }

  ghost predicate NeverMixes(events: seq<Event>) {
    forall k :: 0 <= k < |events| ==> !Mixes(Run(events[..k]), events[k])
  }

  lemma {:induction false} UnmixedRun(events: seq<Event>)
    requires NeverMixes(events)
    ensures Unmixed(Run(events))
    decreases |events|
  {
    if events == [] {
      assert Run([]) == START;
    } else {
      hide Step, Vouched, Unmixed, Mixes, Run;
      var n := |events| - 1;
      RunNext(events, n);
      assert events[..n + 1] == events;
      forall k | 0 <= k < n ensures !Mixes(Run(events[..n][..k]), events[..n][k]) {
        assert events[..n][..k] == events[..k];
      }
      UnmixedRun(events[..n]);
      VouchedRun(events[..n]);
      UnmixedStep(Run(events[..n]), events[n]);
    }
  }

  /** Exactly when the queue ever mixes gateways along a run: when some write-back runs
      without an identifier, at its pop and now, beside a stranger.  Until then no pair is
      mixed either. */
  lemma MixedExactly(events: seq<Event>)
    ensures (exists k :: 0 <= k <= |events| && MixedLine(Run(events[..k]))) <==> !NeverMixes(events)
    ensures NeverMixes(events) ==> !MixedFlight(Run(events))
  {
    hide Run, Step, Mixes, MixedLine, MixedFlight;
    if NeverMixes(events) {
      forall k | 0 <= k <= |events| ensures Unmixed(Run(events[..k])) {
        forall j | 0 <= j < k ensures !Mixes(Run(events[..k][..j]), events[..k][j]) {
          assert events[..k][..j] == events[..j];
        }
        UnmixedRun(events[..k]);
      }
      assert events[..|events|] == events;
    } else {
      var k :| 0 <= k < |events| && Mixes(Run(events[..k]), events[k]);
      RunNext(events, k);
      MixesStep(Run(events[..k]), events[k]);
      assert MixedLine(Run(events[..k + 1]));
    }
  }

  // ----------------------------------------- from a mixed queue to a mixed pair

  predicate OnlyCancelsAndPops(events: seq<Event>) {
    forall k :: 0 <= k < |events| ==> events[k].Cancel? || events[k].Pop?
  }

  lemma UnmixedCancel(w: World, e: Event)
    requires Unmixed(w) && e.Cancel?
    ensures Unmixed(Act(w, e))
  {
    hide Close;
  }

  lemma UnmixedClock(w: World, n: nat)
    ensures Unmixed(w.(now := n)) <==> Unmixed(w)
  {
  }

  lemma {:induction false} UnmixedStays(w: World, events: seq<Event>)
    requires Unmixed(w) && OnlyCancelsAndPops(events)
    ensures Unmixed(RunFrom(w, events))
    decreases |events|
  {
    if events != [] {
      hide Unmixed, Act;
      var n := |events| - 1;
      UnmixedStays(w, events[..n]);
      var v := RunFrom(w, events[..n]);
      if events[n].Pop? {
        UnmixedPop(v);
      } else {
        UnmixedCancel(v, events[n]);
      }
      UnmixedClock(Act(v, events[n]), v.now + 1);
    }
  }

  /** The line without some players. */
  function Thinned(line: Line, gone: set<PlayerID>): Line { map p | p in line && p !in gone :: line[p] }

  lemma CancelThins(w: World, p: PlayerID)
    ensures Step(w, Cancel(p)).line == Thinned(w.line, {p}) && Step(w, Cancel(p)).flights == w.flights
  {
    hide Close;
  }

  lemma {:induction false} CancelMany(w: World, gone: set<PlayerID>) returns (events: seq<Event>)
    ensures OnlyCancelsAndPops(events)
    ensures RunFrom(w, events).line == Thinned(w.line, gone) && RunFrom(w, events).flights == w.flights
    decreases |gone|
  {
    events := [];
    if gone == {} {
      assert RunFrom(w, []).line == Thinned(w.line, {});
    } else {
      hide Step;
      var p :| p in gone;
      events := CancelMany(w, gone - {p});
      var v := RunFrom(w, events);
      CancelThins(v, p);
      assert (events + [Cancel(p)])[..|events|] == events;
      events := events + [Cancel(p)];
    }
  }

  lemma PopTheTwo(w: World, a: Seat, b: Seat)
    requires a.player != b.player && w.line == map[a.player := a.rider, b.player := b.rider]
    requires a.rider.origin != b.rider.origin
    ensures MixedFlight(Step(w, Pop))
  {
    hide TakePair, Before, SlotKey;
    var empty: Line := map[];
    BeforeTotal(KeyOf(a), KeyOf(b));
    KeysDiffer(a, b);
    var x, y := if Before(KeyOf(a), KeyOf(b)) then a else b, if Before(KeyOf(a), KeyOf(b)) then b else a;
    assert w.line == empty[x.player := x.rider][y.player := y.rider];
    TakeTwo(w, empty, x, y);
    assert w.now in Step(w, Pop).flights;
  }

  lemma KeysDiffer(a: Seat, b: Seat)
    requires a.player != b.player
    ensures KeyOf(a) != KeyOf(b)
  {
    hide MemberOf;
    if KeyOf(a) == KeyOf(b) {
      MemberOfInjective(a.player, a.rider.slot, b.player, b.rider.slot);
    }
  }

  /** From any state without a mixed pair, Cancels and Pops alone lead to one if and only if
      the queue holds two gateways. */
  lemma MixedPairExactly(w: World)
    requires !MixedFlight(w)
    ensures MixedLine(w) <==> exists events :: OnlyCancelsAndPops(events) && MixedFlight(RunFrom(w, events))
  {
    hide Step, RunFrom, MixedFlight, OnlyCancelsAndPops;
    if MixedLine(w) {
      var p, q :| p in w.line && q in w.line && w.line[p].origin != w.line[q].origin;
      var cancels := CancelMany(w, w.line.Keys - {p, q});
      var v := RunFrom(w, cancels);
      PopTheTwo(v, Seat(p, w.line[p]), Seat(q, w.line[q]));
      ThenPop(w, cancels);
      assert MixedFlight(RunFrom(w, cancels + [Pop]));
    }
    if events :| OnlyCancelsAndPops(events) && MixedFlight(RunFrom(w, events)) {
      if !MixedLine(w) {
        UnmixedStays(w, events);
      }
    }
  }

  lemma ThenPop(w: World, events: seq<Event>)
    requires OnlyCancelsAndPops(events)
    ensures OnlyCancelsAndPops(events + [Pop]) && RunFrom(w, events + [Pop]) == Step(RunFrom(w, events), Pop)
  {
    hide Step;
    assert (events + [Pop])[..|events|] == events;
  }

  // -------------------------------------- the case the design does not cover

  const ANN: PlayerID := [97]
  const BOB: PlayerID := [98]
  const CAT: PlayerID := [99]
  const OLD: Text := [111]
  const NEW: Text := [110]

  function SlotAt(ms: Millis): Slot { Slot(1, 1, [], ms) }

  const ANN_OLD: Tagged := Tagged(SlotAt(1), 0, OLD)
  const BOB_OLD: Tagged := Tagged(SlotAt(2), 1, OLD)
  const CAT_NEW: Tagged := Tagged(SlotAt(3), 2, NEW)

  lemma PopTwo(w: World, a: Seat, b: Seat)
    requires w.line == map[a.player := a.rider, b.player := b.rider] && a.player != b.player
    requires a.rider.slot.joinedAt < b.rider.slot.joinedAt
    ensures Step(w, Pop)
         == w.(line := map[], now := w.now + 1,
               flights := w.flights[w.now := Flight(a, b, HeldText(w.held), false, w.tokens)])
  {
    hide MemberOf, TakePair;
    var one: Line := map[a.player := a.rider];
    assert map[][a.player := a.rider] == one;
    assert w.line == one[b.player := b.rider];
    TakeTwo(w, map[], a, b);
  }

  /** The claim that a popped pair always comes from one gateway is false without that
      condition.  The identifier is evicted, a pair is popped and fails to publish, a new
      gateway enqueues, the identifier is evicted again, and the pair is written back
      among the new gateway's players; after a Cancel the next pop mixes gateways. */
  lemma MixedPair()
    ensures exists events, id ::
              && id in Run(events).flights
              && Run(events).flights[id].first.rider.origin != Run(events).flights[id].second.rider.origin
  {
    hide Run, Step;
    var e2 := [Enqueue(ANN, SlotAt(1), OLD)] + [Enqueue(BOB, SlotAt(2), OLD)];
    var e5 := e2 + [EvictInstance] + [Pop] + [PublishFail(3)];
    var e8 := e5 + [Enqueue(CAT, SlotAt(3), NEW)] + [EvictInstance] + [WriteBack(3, Delivered)];
    var e9 := e8 + [Cancel(ANN)];
    PairFails(e5);
    PairReturns(e5, e8);
    RunSnoc(e8, Cancel(ANN));
    CancelAnn(Run(e8));
    PopTwo(Run(e9), Seat(BOB, BOB_OLD), Seat(CAT, CAT_NEW));
    RunSnoc(e9, Pop);
    assert Run(e9 + [Pop]).flights[Run(e9).now].first.rider.origin == OLD;
  }

  const ALONE: Line := map[ANN := ANN_OLD]
  const BOTH: Line := map[ANN := ANN_OLD, BOB := BOB_OLD]

  lemma AnnArrives()
    ensures Step(START, Enqueue(ANN, SlotAt(1), OLD)) == World(ALONE, Some(OLD), map[], 1, OLD, {}, 1)
  {
    hide TakePair, Return;
  }

  lemma BobArrives()
    ensures Step(World(ALONE, Some(OLD), map[], 1, OLD, {}, 1), Enqueue(BOB, SlotAt(2), OLD))
         == World(BOTH, Some(OLD), map[], 2, OLD, {}, 2)
  {
    hide TakePair, Return;
    assert ALONE[BOB := BOB_OLD] == BOTH;
  }

  lemma PairPopped()
    ensures Step(World(BOTH, None, map[], 2, OLD, {}, 3), Pop)
         == World(map[], None, map[3 := Flight(Seat(ANN, ANN_OLD), Seat(BOB, BOB_OLD), [], false, 2)], 2, OLD, {}, 4)
  {
    hide TakePair, Return;
    PopTwo(World(BOTH, None, map[], 2, OLD, {}, 3), Seat(ANN, ANN_OLD), Seat(BOB, BOB_OLD));
  }

  lemma TwoWait(events: seq<Event>)
    requires events == [Enqueue(ANN, SlotAt(1), OLD)] + [Enqueue(BOB, SlotAt(2), OLD)]
    ensures Run(events) == World(BOTH, Some(OLD), map[], 2, OLD, {}, 2)
  {
    var e1 := [Enqueue(ANN, SlotAt(1), OLD)];
    assert Run([]) == START;
    hide Run, Step;
    RunSnoc([], e1[0]);
    assert [] + [e1[0]] == e1;
    AnnArrives();
    RunSnoc(e1, Enqueue(BOB, SlotAt(2), OLD));
    BobArrives();
  }

  lemma PairFails(events: seq<Event>)
    requires var e2 := [Enqueue(ANN, SlotAt(1), OLD)] + [Enqueue(BOB, SlotAt(2), OLD)];
             events == e2 + [EvictInstance] + [Pop] + [PublishFail(3)]
    ensures var f := Flight(Seat(ANN, ANN_OLD), Seat(BOB, BOB_OLD), [], true, 2);
            Run(events) == World(map[], None, map[3 := f], 2, OLD, {}, 5)
  {
    hide Run, TakePair, Return, Close;
    var e2 := [Enqueue(ANN, SlotAt(1), OLD)] + [Enqueue(BOB, SlotAt(2), OLD)];
    var e3 := e2 + [EvictInstance];
    TwoWait(e2);
    RunSnoc(e2, EvictInstance);
    RunSnoc(e3, Pop);
    PairPopped();
    RunSnoc(e3 + [Pop], PublishFail(3));
  }

  lemma PairReturns(before: seq<Event>, events: seq<Event>)
    requires var f := Flight(Seat(ANN, ANN_OLD), Seat(BOB, BOB_OLD), [], true, 2);
             Run(before) == World(map[], None, map[3 := f], 2, OLD, {}, 5)
    requires events == before + [Enqueue(CAT, SlotAt(3), NEW)] + [EvictInstance] + [WriteBack(3, Delivered)]
    ensures Run(events).line == map[CAT := CAT_NEW, ANN := ANN_OLD, BOB := BOB_OLD]
  {
    hide Run;
    RunSnoc(before, Enqueue(CAT, SlotAt(3), NEW));
    RunSnoc(before + [Enqueue(CAT, SlotAt(3), NEW)], EvictInstance);
    RunSnoc(before + [Enqueue(CAT, SlotAt(3), NEW)] + [EvictInstance], WriteBack(3, Delivered));
    var f := Run(before).flights[3];
    assert Run(before + [Enqueue(CAT, SlotAt(3), NEW)] + [EvictInstance])
        == World(map[CAT := CAT_NEW], None, map[3 := f], 3, NEW, {}, 7);
  }

  lemma CancelAnn(w: World)
    requires w.line == map[CAT := CAT_NEW, ANN := ANN_OLD, BOB := BOB_OLD]
    ensures Step(w, Cancel(ANN)).line == map[BOB := BOB_OLD, CAT := CAT_NEW]
  {
  }
}
