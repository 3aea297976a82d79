/** Ambiguous failures: a write-back that returns an error may have been applied.
    Conservation can then fail, but with one pair in flight at a time (which is what
    the run loop guarantees) no Enqueue is ever published twice. */
module Ambiguity {
  import opened Bytes
  import opened Member
  import opened Protocol
  import opened RedisQueue
  import opened Waiting
  import opened Riders
  import opened Conservation
  import opened SortedSet

  ghost predicate OneFlight(w: World) {
    forall id, other :: id in w.flights && other in w.flights ==> id == other
  }

  ghost predicate UnpublishedApart(w: World) {
    forall id, p :: id in w.flights && p in w.line && !w.flights[id].failing ==>
        w.line[p].token !in Tokens(w.flights[id])
  }

  ghost predicate PublishedGone(w: World) {
    forall c :: c in w.closed && c.fate == Published ==>
      && c.token < w.tokens
      && (forall s :: Live(w, s) ==> s.rider.token != c.token)
      && (forall d :: d in w.closed && d.fate == Published && d.token == c.token ==> d == c)
  }

  ghost predicate Safe(w: World) {
    OneOwner(w) && LiveIssued(w) && OneFlight(w) && UnpublishedApart(w) && PublishedGone(w) && SeatsDiffer(w)
  }

  /** The matcher pops only when it holds no pair. */
  predicate Alone(w: World, e: Event) { e.Pop? ==> w.flights == map[] }

  lemma OneFlightStep(w: World, e: Event)
    requires OneFlight(w) && Alone(w, e)
    ensures OneFlight(Act(w, e))
  {
    hide Close, IsFront;
    assert Slots(w.line).Keys == w.line.Keys;
  }

  lemma ApartPop(w: World)
    requires Safe(w) && w.flights == map[]
    ensures UnpublishedApart(Act(w, Pop))
  {
    hide Close, IsFront, Live;
    var after := Act(w, Pop);
    assert Slots(w.line).Keys == w.line.Keys;
    forall id, p | id in after.flights && p in after.line && !after.flights[id].failing
      ensures after.line[p].token !in Tokens(after.flights[id])
    {
      LiveLine(w, p);
      LiveLine(w, after.flights[id].first.player);
      LiveLine(w, after.flights[id].second.player);
    }
  }

  lemma ApartStep(w: World, e: Event)
    requires Safe(w) && Alone(w, e)
    ensures UnpublishedApart(Act(w, e))
  {
    if e.Pop? {
      ApartPop(w);
    } else {
      hide Close, TakePair, Live, Front, Second, Slots;
      var after := Act(w, e);
      forall id, p | id in after.flights && p in after.line && !after.flights[id].failing
        ensures after.line[p].token !in Tokens(after.flights[id])
      {
        LiveSeat(w, id, false);
        LiveSeat(w, id, true);
      }
    }
  }

  lemma PublishedBefore(w: World, e: Event, c: Closing)
    requires c in Act(w, e).closed && c.fate == Published && c !in w.closed
    ensures e.PublishOk? && e.flight in w.flights && !w.flights[e.flight].failing
    ensures c.at == w.now && c.token in Tokens(w.flights[e.flight])
  {
  }

  lemma PublishedGoneStep(w: World, e: Event)
    requires Safe(w) && Alone(w, e)
    ensures PublishedGone(Act(w, e))
  {
    hide Act, Live, OneOwner, UnpublishedApart, SeatsDiffer, Tokens;
    var after := Act(w, e);
    TokensStep(w, e);
    forall c | c in after.closed && c.fate == Published
      ensures c.token < after.tokens && forall s :: Live(after, s) ==> s.rider.token != c.token
      ensures forall d :: d in after.closed && d.fate == Published && d.token == c.token ==> d == c
    {
      if c in w.closed {
        forall s | Live(after, s) ensures s.rider.token != c.token {
          LiveBefore(w, e, s);
        }
      } else {
        PublishedBefore(w, e, c);
        TokensLive(w, e.flight, c.token);
        PublishLeaves(w, e, c.token);
      }
      forall d | d in after.closed && d.fate == Published && d.token == c.token ensures d == c {
        if d !in w.closed {
          PublishedBefore(w, e, d);
          TokensLive(w, e.flight, d.token);
        }
        if c !in w.closed {
          PublishedBefore(w, e, c);
          TokensLive(w, e.flight, c.token);
        }
      }
    }
  }

  lemma TokensLive(w: World, id: nat, t: nat)
    requires id in w.flights && t in Tokens(w.flights[id])
    ensures exists s :: Live(w, s) && s.rider.token == t
  {
    LiveSeat(w, id, false);
    LiveSeat(w, id, true);
  }

  lemma PublishLeaves(w: World, e: Event, t: nat)
    requires Safe(w) && e.PublishOk? && e.flight in w.flights && !w.flights[e.flight].failing
    requires t in Tokens(w.flights[e.flight])
    ensures t < w.tokens && forall s :: Live(Act(w, e), s) ==> s.rider.token != t
  {
    TokensLive(w, e.flight, t);
  }

  lemma SafeStep(w: World, e: Event)
    requires Safe(w) && Alone(w, e)
    ensures Safe(Step(w, e))
  {
    hide Act, Live, SeatsDiffer;
    var act, after := Act(w, e), Step(w, e);
    OwnersStep(w, e);
    OneFlightStep(w, e);
    ApartStep(w, e);
    PublishedGoneStep(w, e);
    SeatsDifferStep(w, e);
    forall s ensures Live(after, s) <==> Live(act, s) {
      LiveIgnoresClock(act, w.now + 1, s);
    }
  }

  ghost predicate Sequential(events: seq<Event>) {
    forall i :: 0 <= i < |events| ==> Alone(Run(events[..i]), events[i])
  }

  lemma {:induction false} SafeRun(events: seq<Event>)
    requires Sequential(events)
    ensures Safe(Run(events))
    decreases |events|
  {
    if events == [] {
      assert Run([]) == START;
    } else {
      hide Step, Safe, Alone, Run;
      var n := |events| - 1;
      RunNext(events, n);
      assert events[..n + 1] == events;
      forall i | 0 <= i < n ensures Alone(Run(events[..n][..i]), events[..n][i]) {
        assert events[..n][..i] == events[..i];
      }
      SafeRun(events[..n]);
      SafeStep(Run(events[..n]), events[n]);
    }
  }

  /** Whatever failed write-backs took effect, with one pair in flight at a time each
      Enqueue is published at most once. */
  lemma SequentialPublishesOnce(events: seq<Event>, c: Closing, d: Closing)
    requires Sequential(events)
    requires c in Run(events).closed && d in Run(events).closed
    requires c.fate == Published && d.fate == Published && c.token == d.token
    ensures c == d
  {
    hide Run, Live, OneOwner, LiveIssued, UnpublishedApart, SeatsDiffer, OneFlight;
    SafeRun(events);
  }

  // ------------------------------------------------- what ambiguity can break

  const ANN: PlayerID := [97]
  const BOB: PlayerID := [98]
  const GATEWAY: Text := [103]
  const EARLY: Slot := Slot(1, 1, [], 1)
  const LATE: Slot := Slot(1, 1, [], 2)
  const ANN_EARLY: Tagged := Tagged(EARLY, 0, GATEWAY)
  const BOB_LATE: Tagged := Tagged(LATE, 1, GATEWAY)
  const BOTH: Line := map[ANN := ANN_EARLY, BOB := BOB_LATE]

  lemma PopBoth(w: World)
    requires w.line == BOTH
    ensures Act(w, Pop)
         == w.(line := map[],
               flights := w.flights[w.now := Flight(Seat(ANN, ANN_EARLY), Seat(BOB, BOB_LATE), HeldText(w.held),
                   false, w.tokens)])
  {
    hide MemberOf, TakePair;
    var one: Line := map[ANN := ANN_EARLY];
    assert map[][ANN := ANN_EARLY] == one;
    TakeTwo(w, map[], Seat(ANN, ANN_EARLY), Seat(BOB, BOB_LATE));
  }

  /** With ambiguous failures conservation fails: here one Enqueue is recorded lost and
      later published. */
  lemma LostAndPublished()
    ensures exists events, c, d ::
              && c in Run(events).closed && d in Run(events).closed
              && c.token == d.token && c.fate == Lost && d.fate == Published
  {
    hide Run, Act;
    var w2 := World(BOTH, Some(GATEWAY), map[], 2, GATEWAY, {}, 2);
    var pair := Flight(Seat(ANN, ANN_EARLY), Seat(BOB, BOB_LATE), GATEWAY, false, 2);
    var e2 := [Enqueue(ANN, EARLY, GATEWAY), Enqueue(BOB, LATE, GATEWAY)];
    TwoArrive(e2);
    var e5 := e2 + [Pop] + [PublishFail(2)] + [WriteBack(2, ReplyLost)];
    FailedButApplied(w2, pair);
    RunSnoc(e2, Pop);
    RunSnoc(e2 + [Pop], PublishFail(2));
    RunSnoc(e2 + [Pop] + [PublishFail(2)], WriteBack(2, ReplyLost));
    var w5 := World(BOTH, Some(GATEWAY), map[2 := pair.(failing := true)], 2, GATEWAY, {}, 5);
    assert Run(e5) == w5;
    LostThenPublished(w5, pair);
    RunSnoc(e5, GiveUp(2));
    RunSnoc(e5 + [GiveUp(2)], Pop);
    RunSnoc(e5 + [GiveUp(2)] + [Pop], PublishOk(6));
  }

  lemma TwoArrive(events: seq<Event>)
    requires events == [Enqueue(ANN, EARLY, GATEWAY), Enqueue(BOB, LATE, GATEWAY)]
    ensures Run(events) == World(BOTH, Some(GATEWAY), map[], 2, GATEWAY, {}, 2)
  {
    var one := [Enqueue(ANN, EARLY, GATEWAY)];
    RunSnoc([], one[0]);
    assert [] + [one[0]] == one;
    RunSnoc(one, events[1]);
    assert one + [events[1]] == events;
    assert Run([]) == START;
    assert Run(one) == World(map[ANN := ANN_EARLY], Some(GATEWAY), map[], 1, GATEWAY, {}, 1);
  }

  lemma FailedButApplied(w: World, pair: Flight)
    requires w == World(BOTH, Some(GATEWAY), map[], 2, GATEWAY, {}, 2)
    requires pair == Flight(Seat(ANN, ANN_EARLY), Seat(BOB, BOB_LATE), GATEWAY, false, 2)
    ensures var w3 := Step(w, Pop);
            var w4 := Step(w3, PublishFail(2));
            Step(w4, WriteBack(2, ReplyLost))
            == World(BOTH, Some(GATEWAY), map[2 := pair.(failing := true)], 2, GATEWAY, {}, 5)
  {
    hide TakePair;
    PopBoth(w);
    var w3 := World(map[], Some(GATEWAY), map[2 := pair], 2, GATEWAY, {}, 3);
    assert Step(w, Pop) == w3;
    var w4 := w3.(flights := map[2 := pair.(failing := true)], now := 4);
    assert Step(w3, PublishFail(2)) == w4;
    assert Step(w4, WriteBack(2, ReplyLost)).line == BOTH;
  }

  lemma LostThenPublished(w: World, pair: Flight)
    requires w == World(BOTH, Some(GATEWAY), map[2 := pair.(failing := true)], 2, GATEWAY, {}, 5)
    requires pair == Flight(Seat(ANN, ANN_EARLY), Seat(BOB, BOB_LATE), GATEWAY, false, 2)
    ensures var w7 := Step(Step(w, GiveUp(2)), Pop);
            {Closing(0, Lost, 5), Closing(0, Published, 7)} <= Step(w7, PublishOk(6)).closed
  {
    hide TakePair;
    var w6 := Step(w, GiveUp(2));
    assert w6.line == BOTH && w6.now == 6 && w6.flights == map[];
    assert Closing(0, Lost, 5) in w6.closed;
    PopBoth(w6);
  }
}
