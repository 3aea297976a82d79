/** Where every accepted Enqueue ends up. */
module Conservation {
  import opened Member
  import opened Protocol
  import opened RedisQueue
  import opened Waiting
  import opened Riders

  /** A place where a token can be: waiting, aboard a popped pair, or closed. */
  datatype Place =
    | Queued(player: PlayerID)
    | Aboard(flight: nat, second: bool)
    | Closed(closing: Closing)

  predicate At(w: World, t: nat, x: Place) {
    match x
    case Queued(p) => p in w.line && w.line[p].token == t
    case Aboard(id, second) => id in w.flights && SeatOf(w.flights[id], second).rider.token == t
    case Closed(c) => c in w.closed && c.token == t
  }

  /** Clean failures: a call that returns an error had no effect. */
  predicate Clean(e: Event) { e.WriteBack? ==> !e.net.ReplyLost? }

  /** A write-back that is applied although its caller sees an error, so that the pair is
      in the queue and still held by the matcher. */
  predicate Doubles(w: World, e: Event) {
    && e.WriteBack? && e.net.ReplyLost?
    && e.flight in w.flights && w.flights[e.flight].failing && Matches(w, w.flights[e.flight])
  }

  ghost predicate Unique(w: World) {
    forall t: nat, x, y :: At(w, t, x) && At(w, t, y) ==> x == y
  }

  ghost predicate Issued(w: World) {
    forall t: nat, x :: At(w, t, x) ==> t < w.tokens
  }

  ghost predicate Somewhere(w: World, t: nat) {
    exists x :: At(w, t, x)
  }

  ghost predicate Covered(w: World) {
    forall t: nat :: t < w.tokens ==> Somewhere(w, t)
  }

  ghost predicate SeatsDiffer(w: World) {
    forall id :: id in w.flights ==> id < w.now && w.flights[id].first.player != w.flights[id].second.player
  }

  ghost predicate Conserved(w: World) {
    Unique(w) && Issued(w) && Covered(w) && SeatsDiffer(w)
  }

  // ------------------------------------------------------ one step of a token

  /** Where an event takes the token that is at `x`. */
  ghost function Move(w: World, e: Event, x: Place): Place {
    match e
    case Enqueue(player, _, gateway) =>
      if Accepted(e) && x.Queued? && x.player in Ousted(w, player, gateway)
      then Shut(w, x.player, if IsReset(w, gateway) then Reset else Replaced)
      else x
    case Cancel(player) =>
      if player in w.line && x == Queued(player) then Shut(w, player, Cancelled) else x
    case Pop => MovePop(w, x)
    case PopUnanswered =>
      if |Slots(w.line)| >= 2 && x.Queued? && x.player in NextPair(w) then Shut(w, x.player, Unanswered) else x
    case PublishOk(id) => if id in w.flights && !w.flights[id].failing then MoveEnd(w, id, Published, x) else x
    case PublishFail(_) => x
    case WriteBack(id, net) => if id in w.flights && w.flights[id].failing then MoveReturn(w, id, net, x) else x
    case GiveUp(id) => if id in w.flights && w.flights[id].failing then MoveEnd(w, id, Lost, x) else x
    case EvictQueue => if x.Queued? && x.player in w.line then Shut(w, x.player, Evicted) else x
    case EvictInstance => x
  }

  function Shut(w: World, p: PlayerID, fate: Fate): Place
    requires p in w.line
  {
    Closed(Closing(w.line[p].token, fate, w.now))
  }

  ghost function MovePop(w: World, x: Place): Place {
    var waiting := Slots(w.line);
    if |waiting| < 2 then x
    else if x == Queued(Front(waiting)) then Aboard(w.now, false)
    else if x == Queued(Second(waiting)) then Aboard(w.now, true)
    else x
  }

  function MoveEnd(w: World, id: nat, fate: Fate, x: Place): Place
    requires id in w.flights
  {
    if x.Aboard? && x.flight == id
    then Closed(Closing(SeatOf(w.flights[id], x.second).rider.token, fate, w.now))
    else x
  }

  function MoveReturn(w: World, id: nat, net: Net, x: Place): Place
    requires id in w.flights
  {
    var f := w.flights[id];
    if net.NotSent? then x
    else if !Matches(w, f) then (if net.Delivered? then MoveEnd(w, id, Dropped, x) else x)
    else if x.Queued? && x.player in Displaced(w, f) then Shut(w, x.player, Replaced)
    else if x.Aboard? && x.flight == id && net.Delivered? then Queued(SeatOf(f, x.second).player)
    else x
  }

  /** The token an event creates, and where it goes. */
  predicate Newborn(w: World, e: Event, t: nat, y: Place) {
    Accepted(e) && t == w.tokens && y == Queued(e.player)
  }

  /** Every token moves to where Move says. */
  ghost predicate Forward(w: World, e: Event, after: World) {
    && (forall t: nat, x :: At(w, t, x) ==> At(after, t, Move(w, e, x)))
    && (Accepted(e) ==> At(after, w.tokens, Queued(e.player)))
  }

  /** Every token came from somewhere. */
  ghost predicate Backward(w: World, e: Event, after: World) {
    forall t: nat, y :: At(after, t, y) ==> Newborn(w, e, t, y) || exists x :: At(w, t, x) && Move(w, e, x) == y
  }

  lemma EnqueueMoves(w: World, e: Event)
    requires Accepted(e)
    ensures Forward(w, e, Act(w, e)) && Backward(w, e, Act(w, e))
  {
    var after := Act(w, e);
    forall t: nat, y | At(after, t, y) && !Newborn(w, e, t, y)
      ensures exists x :: At(w, t, x) && Move(w, e, x) == y
    {
      if y.Closed? && y.closing !in w.closed {
        var fate := if IsReset(w, e.gateway) then Reset else Replaced;
        var p :| p in Ousted(w, e.player, e.gateway) && y.closing == Closing(w.line[p].token, fate, w.now);
        assert At(w, t, Queued(p)) && Move(w, e, Queued(p)) == y;
      } else {
        assert At(w, t, y) && Move(w, e, y) == y;
      }
    }
  }

  lemma CancelMoves(w: World, e: Event)
    requires e.Cancel?
    ensures Forward(w, e, Act(w, e)) && Backward(w, e, Act(w, e))
  {
    var after := Act(w, e);
    forall t: nat, y | At(after, t, y) ensures exists x :: At(w, t, x) && Move(w, e, x) == y {
      if y.Closed? && y.closing !in w.closed {
        assert At(w, t, Queued(e.player)) && Move(w, e, Queued(e.player)) == y;
      } else {
        assert At(w, t, y) && Move(w, e, y) == y;
      }
    }
  }

  lemma EvictMoves(w: World)
    ensures Forward(w, EvictQueue, Act(w, EvictQueue)) && Backward(w, EvictQueue, Act(w, EvictQueue))
  {
    var e := EvictQueue;
    var after := Act(w, e);
    forall t: nat, y | At(after, t, y) ensures exists x :: At(w, t, x) && Move(w, e, x) == y {
      if y.Closed? && y.closing !in w.closed {
        var p :| p in w.line && y.closing == Closing(w.line[p].token, Evicted, w.now);
        assert At(w, t, Queued(p)) && Move(w, e, Queued(p)) == y;
      } else {
        assert At(w, t, y) && Move(w, e, y) == y;
      }
    }
  }

  lemma UnansweredMoves(w: World)
    ensures Forward(w, PopUnanswered, Act(w, PopUnanswered)) && Backward(w, PopUnanswered, Act(w, PopUnanswered))
  {
    hide IsFront;
    var e := PopUnanswered;
    var after := Act(w, e);
    assert Slots(w.line).Keys == w.line.Keys;
    forall t: nat, y | At(after, t, y) ensures exists x :: At(w, t, x) && Move(w, e, x) == y {
      if y.Closed? && y.closing !in w.closed {
        var p :| p in NextPair(w) && p in w.line && y.closing == Closing(w.line[p].token, Unanswered, w.now);
        assert At(w, t, Queued(p)) && Move(w, e, Queued(p)) == y;
      } else {
        assert At(w, t, y) && Move(w, e, y) == y;
      }
    }
  }

  lemma PopForward(w: World)
    requires SeatsDiffer(w)
    ensures Forward(w, Pop, Act(w, Pop))
  {
    hide IsFront;
    assert Slots(w.line).Keys == w.line.Keys;
  }

  lemma PopMoves(w: World)
    requires SeatsDiffer(w)
    ensures Forward(w, Pop, Act(w, Pop)) && Backward(w, Pop, Act(w, Pop))
  {
    PopForward(w);
    hide IsFront, Forward;
    var after, waiting := Act(w, Pop), Slots(w.line);
    assert waiting.Keys == w.line.Keys;
    forall t: nat, y | At(after, t, y) ensures exists x :: At(w, t, x) && Move(w, Pop, x) == y {
      if |waiting| >= 2 && y.Aboard? && y.flight == w.now {
        var x := Queued(if y.second then Second(waiting) else Front(waiting));
        assert At(w, t, x) && Move(w, Pop, x) == y;
      } else {
        assert At(w, t, y) && Move(w, Pop, y) == y;
      }
    }
  }

  lemma EndMoves(w: World, id: nat, fate: Fate)
    requires id in w.flights
    ensures forall t: nat, x :: At(w, t, x) ==> At(End(w, id, fate), t, MoveEnd(w, id, fate, x))
    ensures forall t: nat, y :: At(End(w, id, fate), t, y) ==> exists x :: At(w, t, x) && MoveEnd(w, id, fate, x) == y
  {
    var after := End(w, id, fate);
    forall t: nat, y | At(after, t, y) ensures exists x :: At(w, t, x) && MoveEnd(w, id, fate, x) == y {
      if y.Closed? && y.closing !in w.closed {
        var x := Aboard(id, y.closing.token != w.flights[id].first.rider.token);
        assert At(w, t, x) && MoveEnd(w, id, fate, x) == y;
      } else {
        assert At(w, t, y) && MoveEnd(w, id, fate, y) == y;
      }
    }
  }

  lemma PutBackMoves(w: World, id: nat)
    requires id in w.flights && Matches(w, w.flights[id]) && Unique(w) && SeatsDiffer(w)
    ensures var after := Return(w, id, Delivered);
            && (forall t: nat, x :: At(w, t, x) ==> At(after, t, MoveReturn(w, id, Delivered, x)))
            && (forall t: nat, y :: At(after, t, y) ==> exists x :: At(w, t, x) && MoveReturn(w, id, Delivered, x) == y)
  {
    var f, after := w.flights[id], Return(w, id, Delivered);
    assert At(w, f.first.rider.token, Aboard(id, false));
    assert At(w, f.second.rider.token, Aboard(id, true));
    forall p | p in w.line && p in {f.first.player, f.second.player} ensures p in Displaced(w, f) {
      assert At(w, w.line[p].token, Queued(p));
    }
    forall t: nat, x | At(w, t, x) ensures At(after, t, MoveReturn(w, id, Delivered, x)) {
    }
    forall t: nat, y | At(after, t, y) ensures exists x :: At(w, t, x) && MoveReturn(w, id, Delivered, x) == y {
      if y.Closed? && y.closing !in w.closed {
        var p :| p in Displaced(w, f) && y.closing == Closing(w.line[p].token, Replaced, w.now);
        assert At(w, t, Queued(p)) && MoveReturn(w, id, Delivered, Queued(p)) == y;
      } else if y.Queued? && y.player in {f.first.player, f.second.player} {
        var x := Aboard(id, y.player == f.second.player);
        assert At(w, t, x) && MoveReturn(w, id, Delivered, x) == y;
      } else {
        assert At(w, t, y) && MoveReturn(w, id, Delivered, y) == y;
      }
    }
  }

  lemma ReturnMoves(w: World, e: Event)
    requires e.WriteBack? && !Doubles(w, e) && Unique(w) && SeatsDiffer(w)
    ensures Forward(w, e, Act(w, e)) && Backward(w, e, Act(w, e))
  {
    hide At, MoveReturn, Return;
    var after := Act(w, e);
    if e.flight in w.flights && w.flights[e.flight].failing && e.net.Delivered? {
      if Matches(w, w.flights[e.flight]) {
        PutBackMoves(w, e.flight);
      } else {
        ReturnStaleMoves(w, e.flight);
      }
    } else {
      StayMoves(w, e);
    }
  }

  lemma ReturnStaleMoves(w: World, id: nat)
    requires id in w.flights && !Matches(w, w.flights[id])
    ensures var after := Return(w, id, Delivered);
            && (forall t: nat, x :: At(w, t, x) ==> At(after, t, MoveReturn(w, id, Delivered, x)))
            && (forall t: nat, y :: At(after, t, y) ==> exists x :: At(w, t, x) && MoveReturn(w, id, Delivered, x) == y)
  {
    hide At, MoveEnd, End;
    EndMoves(w, id, Dropped);
    forall x ensures MoveReturn(w, id, Delivered, x) == MoveEnd(w, id, Dropped, x) {
    }
  }

  /** Events that move nobody. */
  lemma StayMoves(w: World, e: Event)
    requires e.PublishFail? || e.EvictInstance?
             || (e.Enqueue? && !Accepted(e))
             || (e.WriteBack? && !e.net.Delivered? && !Doubles(w, e))
             || (e.WriteBack? && !(e.flight in w.flights && w.flights[e.flight].failing))
    ensures Forward(w, e, Act(w, e)) && Backward(w, e, Act(w, e))
  {
    var after := Act(w, e);
    forall t: nat, y | At(after, t, y) ensures At(w, t, y) && Move(w, e, y) == y {
    }
  }

  lemma EndEventMoves(w: World, e: Event)
    requires e.PublishOk? || e.GiveUp?
    ensures Forward(w, e, Act(w, e)) && Backward(w, e, Act(w, e))
  {
    hide At, MoveEnd, End;
    if e.flight in w.flights {
      EndMoves(w, e.flight, Published);
      EndMoves(w, e.flight, Lost);
    }
  }

  lemma OtherMoves(w: World, e: Event)
    requires !e.WriteBack? && SeatsDiffer(w)
    ensures Forward(w, e, Act(w, e)) && Backward(w, e, Act(w, e))
  {
    hide Forward, Backward, Act, SeatsDiffer;
    match e
    case Enqueue(_, _, _) => if Accepted(e) { EnqueueMoves(w, e); } else { StayMoves(w, e); }
    case Cancel(_) => CancelMoves(w, e);
    case Pop => PopMoves(w);
    case PopUnanswered => UnansweredMoves(w);
    case EvictQueue => EvictMoves(w);
    case PublishFail(_) => StayMoves(w, e);
    case EvictInstance => StayMoves(w, e);
    case _ => EndEventMoves(w, e);
  }

  lemma ActMoves(w: World, e: Event)
    requires !Doubles(w, e) && Unique(w) && SeatsDiffer(w)
    ensures Forward(w, e, Act(w, e)) && Backward(w, e, Act(w, e))
  {
    hide Forward, Backward, Act, Unique, SeatsDiffer, Doubles;
    if e.WriteBack? {
      ReturnMoves(w, e);
    } else {
      OtherMoves(w, e);
    }
  }

  lemma AtIgnoresClock(w: World, n: nat, t: nat, x: Place)
    ensures At(w.(now := n), t, x) <==> At(w, t, x)
  {
  }

  // ------------------------------------------------------------ whole runs

  lemma SeatsDifferStep(w: World, e: Event)
    requires SeatsDiffer(w)
    ensures SeatsDiffer(Step(w, e))
  {
    hide Close, IsFront;
    assert Slots(w.line).Keys == w.line.Keys;
  }

  lemma ConservedStep(w: World, e: Event)
    requires Conserved(w) && !Doubles(w, e)
    ensures Conserved(Step(w, e))
  {
    hide At, Move, Act, Doubles;
    var after := Step(w, e);
    ActMoves(w, e);
    TokensStep(w, e);
    SeatsDifferStep(w, e);
    forall t: nat, x ensures At(after, t, x) <==> At(Act(w, e), t, x) {
      AtIgnoresClock(Act(w, e), w.now + 1, t, x);
    }
    forall t: nat, x, y | At(after, t, x) && At(after, t, y) ensures x == y {
      OriginDecides(w, e, t, x, y);
    }
    forall t: nat | t < after.tokens ensures Somewhere(after, t) {
      if t < w.tokens {
        assert Somewhere(w, t);
        var x :| At(w, t, x);
        assert At(after, t, Move(w, e, x));
      }
    }
  }

  lemma OriginDecides(w: World, e: Event, t: nat, x: Place, y: Place)
    requires Unique(w) && Issued(w) && Backward(w, e, Act(w, e))
    requires At(Act(w, e), t, x) && At(Act(w, e), t, y)
    ensures x == y
  {
    hide At, Move, Act;
    if !Newborn(w, e, t, x) && !Newborn(w, e, t, y) {
      var x0 :| At(w, t, x0) && Move(w, e, x0) == x;
      var y0 :| At(w, t, y0) && Move(w, e, y0) == y;
      assert x0 == y0;
    }
  }

  // ------------------------------------------------- under any failures

  lemma PutBackCovers(w: World, id: nat, net: Net, t: nat, x: Place)
    requires id in w.flights && Matches(w, w.flights[id]) && !net.NotSent? && SeatsDiffer(w) && At(w, t, x)
    ensures Somewhere(Return(w, id, net), t)
  {
    var f, after := w.flights[id], Return(w, id, net);
    assert At(after, f.first.rider.token, Queued(f.first.player));
    assert At(after, f.second.rider.token, Queued(f.second.player));
    if x.Queued? && x.player in Displaced(w, f) {
      assert At(after, t, Shut(w, x.player, Replaced));
    } else if t !in Tokens(f) {
      assert At(after, t, x);
    }
  }

  lemma ReturnCovers(w: World, e: Event, t: nat, x: Place)
    requires e.WriteBack? && SeatsDiffer(w) && At(w, t, x)
    ensures Somewhere(Act(w, e), t)
  {
    hide At, MoveReturn, Return, SeatsDiffer;
    if e.flight in w.flights && w.flights[e.flight].failing && !e.net.NotSent? {
      if Matches(w, w.flights[e.flight]) {
        PutBackCovers(w, e.flight, e.net, t, x);
      } else if e.net.Delivered? {
        ReturnStaleMoves(w, e.flight);
        assert At(Act(w, e), t, MoveReturn(w, e.flight, Delivered, x));
      } else {
        StayMoves(w, e);
        assert At(Act(w, e), t, Move(w, e, x));
      }
    } else {
      StayMoves(w, e);
      assert At(Act(w, e), t, Move(w, e, x));
    }
  }

  lemma CoveredStep(w: World, e: Event)
    requires Covered(w) && SeatsDiffer(w)
    ensures Covered(Step(w, e)) && SeatsDiffer(Step(w, e))
  {
    hide At, Move, Act, SeatsDiffer;
    var after := Step(w, e);
    TokensStep(w, e);
    SeatsDifferStep(w, e);
    if !e.WriteBack? {
      OtherMoves(w, e);
    }
    forall t: nat | t < after.tokens ensures Somewhere(after, t) {
      assert exists y :: At(Act(w, e), t, y) by {
        if t < w.tokens {
          assert Somewhere(w, t);
          var x :| At(w, t, x);
          if e.WriteBack? {
            ReturnCovers(w, e, t, x);
          } else {
            assert At(Act(w, e), t, Move(w, e, x));
          }
        }
      }
      var y :| At(Act(w, e), t, y);
      AtIgnoresClock(Act(w, e), w.now + 1, t, y);
    }
  }

  /** Nothing vanishes, over every run and whatever fails: each accepted Enqueue is
      waiting, in flight or closed.  Only that it is so once needs more. */
  lemma {:induction false} NothingVanishes(events: seq<Event>)
    ensures Covered(Run(events)) && SeatsDiffer(Run(events))
    decreases |events|
  {
    if events == [] {
      assert Run([]) == START;
    } else {
      hide Step, Covered, SeatsDiffer;
      NothingVanishes(events[..|events| - 1]);
      CoveredStep(Run(events[..|events| - 1]), events[|events| - 1]);
    }
  }

  // ------------------------------------------------------- exactly when

  lemma DoublingBreaks(w: World, e: Event)
    requires Doubles(w, e)
    ensures !Conserved(Step(w, e))
  {
    hide Close;
    var after, f := Step(w, e), w.flights[e.flight];
    assert At(after, f.second.rider.token, Aboard(e.flight, true));
    assert At(after, f.second.rider.token, Queued(f.second.player));
  }

  ghost predicate AlwaysConserved(events: seq<Event>) {
    forall k :: 0 <= k <= |events| ==> Conserved(Run(events[..k]))
  }

  ghost predicate NeverDoubles(events: seq<Event>) {
    forall k :: 0 <= k < |events| ==> !Doubles(Run(events[..k]), events[k])
  }

  lemma {:induction false} NoDoublingConserves(events: seq<Event>)
    requires NeverDoubles(events)
    ensures Conserved(Run(events))
    decreases |events|
  {
    if events == [] {
      assert Run([]) == START;
    } else {
      hide Step, Conserved, Doubles, Run;
      var n := |events| - 1;
      RunNext(events, n);
      assert events[..n + 1] == events;
      forall k | 0 <= k < n ensures !Doubles(Run(events[..n][..k]), events[..n][k]) {
        assert events[..n][..k] == events[..k];
      }
      NoDoublingConserves(events[..n]);
      ConservedStep(Run(events[..n]), events[n]);
    }
  }

  /** Exactly when tokens are conserved throughout a run, whatever fails: when no
      write-back is applied behind an error. */
  lemma ConservedExactly(events: seq<Event>)
    ensures AlwaysConserved(events) <==> NeverDoubles(events)
  {
    hide Run, Conserved, Doubles, Step;
    if AlwaysConserved(events) {
      forall k | 0 <= k < |events| ensures !Doubles(Run(events[..k]), events[k]) {
        RunNext(events, k);
        assert Conserved(Run(events[..k + 1]));
        if Doubles(Run(events[..k]), events[k]) {
          DoublingBreaks(Run(events[..k]), events[k]);
        }
      }
    }
    if NeverDoubles(events) {
      forall k | 0 <= k <= |events| ensures Conserved(Run(events[..k])) {
        forall j | 0 <= j < k ensures !Doubles(Run(events[..k][..j]), events[..k][j]) {
          assert events[..k][..j] == events[..j];
        }
        NoDoublingConserves(events[..k]);
      }
    }
  }

  /** Conservation over every run with clean failures: each accepted Enqueue is in
      exactly one place, waiting, in one seat of one popped pair, or closed with one
      fate at one moment. */
  lemma Conservation(events: seq<Event>)
    requires forall i :: 0 <= i < |events| ==> Clean(events[i])
    ensures Conserved(Run(events))
  {
    hide Run, Conserved;
    NoDoublingConserves(events);
  }

  /** No player is ever matched twice by the same Enqueue, and a published Enqueue is
      neither waiting nor in flight again. */
  lemma PublishedOnce(events: seq<Event>, c: Closing, t: nat)
    requires forall i :: 0 <= i < |events| ==> Clean(events[i])
    requires c in Run(events).closed && c.fate == Published && c.token == t
    ensures forall d :: d in Run(events).closed && d.token == t ==> d == c
    ensures forall p :: p in Run(events).line ==> Run(events).line[p].token != t
    ensures forall id, b :: id in Run(events).flights ==> SeatOf(Run(events).flights[id], b).rider.token != t
  {
    hide Run;
    Conservation(events);
    var w := Run(events);
    assert At(w, t, Closed(c));
    forall d | d in w.closed && d.token == t ensures d == c {
      assert At(w, t, Closed(d));
    }
    forall p | p in w.line ensures w.line[p].token != t {
      assert At(w, w.line[p].token, Queued(p));
    }
    forall id, b | id in w.flights ensures SeatOf(w.flights[id], b).rider.token != t {
      assert At(w, SeatOf(w.flights[id], b).rider.token, Aboard(id, b));
    }
  }
}
