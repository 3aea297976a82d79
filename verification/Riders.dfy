/** Riders: a player with the entry and history of one Enqueue.  Whatever happens, a
    live rider is an unchanged copy of what an Enqueue put in. */
module Riders {
  import opened Member
  import opened Waiting
  import opened Protocol

  function SeatOf(f: Flight, second: bool): Seat { if second then f.second else f.first }

  /** The rider is waiting or aboard a popped pair. */
  predicate Live(w: World, s: Seat) {
    || (s.player in w.line && w.line[s.player] == s.rider)
    || (exists id, second :: id in w.flights && SeatOf(w.flights[id], second) == s)
  }

  /** What an accepted Enqueue creates. */
  function Arrival(w: World, e: Event): Seat
    requires Accepted(e)
  {
    Seat(e.player, Tagged(e.slot, w.tokens, e.gateway))
  }

  /** Two live copies of one Enqueue are the same: same player, slot and origin. */
  ghost predicate OneOwner(w: World) {
    forall s, r :: Live(w, s) && Live(w, r) && s.rider.token == r.rider.token ==> s == r
  }

  ghost predicate LiveIssued(w: World) {
    forall s :: Live(w, s) ==> s.rider.token < w.tokens
  }

  lemma LiveLine(w: World, p: PlayerID)
    requires p in w.line
    ensures Live(w, Seat(p, w.line[p]))
  {
  }

  lemma LiveSeat(w: World, id: nat, second: bool)
    requires id in w.flights
    ensures Live(w, SeatOf(w.flights[id], second))
  {
  }

  lemma LineBeforePop(w: World, e: Event, p: PlayerID)
    requires (e.Pop? || e.PopUnanswered?) && p in Act(w, e).line
    ensures p in w.line && Act(w, e).line[p] == w.line[p]
  {
    hide Close, IsFront;
    assert Slots(w.line).Keys == w.line.Keys;
  }

  lemma LineBefore(w: World, e: Event, p: PlayerID)
    requires p in Act(w, e).line
    ensures var s := Seat(p, Act(w, e).line[p]);
            Live(w, s) || (Accepted(e) && s == Arrival(w, e))
  {
    if e.Pop? || e.PopUnanswered? {
      LineBeforePop(w, e, p);
    } else {
      hide Close, TakePair, Slots;
      if e.WriteBack? && e.flight in w.flights {
        LiveSeat(w, e.flight, false);
        LiveSeat(w, e.flight, true);
      }
    }
  }

  lemma SeatBefore(w: World, e: Event, id: nat, second: bool)
    requires id in Act(w, e).flights
    ensures Live(w, SeatOf(Act(w, e).flights[id], second))
  {
    hide Close, IsFront;
    var after := Act(w, e);
    assert Slots(w.line).Keys == w.line.Keys;
    if id in w.flights && SeatOf(after.flights[id], second) == SeatOf(w.flights[id], second) {
      LiveSeat(w, id, second);
    } else {
      LiveLine(w, SeatOf(after.flights[id], second).player);
    }
  }

  /** Only an accepted Enqueue makes a rider live. */
  lemma LiveBefore(w: World, e: Event, s: Seat)
    requires Live(Act(w, e), s)
    ensures Live(w, s) || (Accepted(e) && s == Arrival(w, e))
  {
    hide Act;
    var after := Act(w, e);
    if s.player in after.line && after.line[s.player] == s.rider {
      LineBefore(w, e, s.player);
    } else {
      var id, second :| id in after.flights && SeatOf(after.flights[id], second) == s;
      SeatBefore(w, e, id, second);
    }
  }

  lemma ArrivalLives(w: World, e: Event)
    requires Accepted(e)
    ensures Live(Act(w, e), Arrival(w, e))
  {
    hide Close;
  }

  lemma LiveIgnoresClock(w: World, n: nat, s: Seat)
    ensures Live(w.(now := n), s) <==> Live(w, s)
  {
  }

  lemma TokensStep(w: World, e: Event)
    ensures Act(w, e).tokens == if Accepted(e) then w.tokens + 1 else w.tokens
  {
    hide Close, Slots;
  }

  lemma {:induction false} TokensGrow(events: seq<Event>, i: nat)
    requires i <= |events|
    ensures Run(events[..i]).tokens <= Run(events).tokens
    decreases |events|
  {
    if i == |events| {
      assert events[..i] == events;
    } else {
      hide Act;
      var n := |events| - 1;
      assert events[..n][..i] == events[..i];
      TokensGrow(events[..n], i);
      TokensStep(Run(events[..n]), events[n]);
    }
  }

  lemma OwnersStep(w: World, e: Event)
    requires OneOwner(w) && LiveIssued(w)
    ensures OneOwner(Step(w, e)) && LiveIssued(Step(w, e))
  {
    hide Live, Act;
    var act := Act(w, e);
    TokensStep(w, e);
    forall s | Live(Step(w, e), s) ensures Live(w, s) || (Accepted(e) && s == Arrival(w, e)) {
      LiveIgnoresClock(act, w.now + 1, s);
      LiveBefore(w, e, s);
    }
  }

  /** Over every run and whatever fails, all copies of one Enqueue agree. */
  lemma {:induction false} OwnersRun(events: seq<Event>)
    ensures OneOwner(Run(events)) && LiveIssued(Run(events))
    decreases |events|
  {
    if events == [] {
      assert Run([]) == START;
    } else {
      hide Step, OneOwner, LiveIssued;
      OwnersRun(events[..|events| - 1]);
      OwnersStep(Run(events[..|events| - 1]), events[|events| - 1]);
    }
  }

  /** Every live rider is exactly what some accepted Enqueue of the run brought in. */
  lemma {:induction false} LiveFromEnqueue(events: seq<Event>, s: Seat)
    requires Live(Run(events), s)
    ensures exists i :: 0 <= i < |events| && Accepted(events[i]) && s == Arrival(Run(events[..i]), events[i])
    decreases |events|
  {
    assert Run([]) == START;
    if events != [] {
      hide Live, Act;
      var n := |events| - 1;
      var w := Run(events[..n]);
      LiveIgnoresClock(Act(w, events[n]), w.now + 1, s);
      LiveBefore(w, events[n], s);
      if Live(w, s) {
        LiveFromEnqueue(events[..n], s);
        var i :| 0 <= i < n && Accepted(events[..n][i]) && s == Arrival(Run(events[..n][..i]), events[..n][i]);
        assert events[..n][..i] == events[..i] && Accepted(events[i]);
      } else {
        assert Accepted(events[n]);
      }
    }
  }
}
