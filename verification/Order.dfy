/** First come, first served: nobody is ever put in front of a player who already
    waits, through any number of pops, failed publishes and write-backs. */
module Order {
  import opened Bytes
  import opened Member
  import opened SortedSet
  import opened Waiting
  import opened Protocol
  import opened RedisQueue
  import opened Riders

  /** Token u stands in front of token t, counting the queue and the pairs in flight. */
  ghost predicate Ahead(w: World, u: nat, t: nat) {
    exists s, r :: InFront(w, s, r) && s.rider.token == u && r.rider.token == t
  }

  predicate InFront(w: World, s: Seat, r: Seat) {
    Live(w, s) && Live(w, r) && Before(KeyOf(s), KeyOf(r))
  }

  /** Exactly when somebody gets in front of a rider who stays: only an Enqueue that is
      accepted with a smaller key does it, and only for its own token. */
  lemma OvertakeExactly(w: World, e: Event, u: nat, r: Seat)
    requires OneOwner(w) && LiveIssued(w) && Live(w, r) && Live(Act(w, e), r)
    ensures Ahead(Act(w, e), u, r.rider.token) && !Ahead(w, u, r.rider.token)
       <==> Accepted(e) && u == w.tokens && Before(KeyOf(Arrival(w, e)), KeyOf(r))
  {
    hide Live, Act, SlotKey;
    var after := Act(w, e);
    if Ahead(after, u, r.rider.token) && !Ahead(w, u, r.rider.token) {
      var s, q :| InFront(after, s, q) && s.rider.token == u && q.rider.token == r.rider.token;
      LiveBefore(w, e, s);
      LiveBefore(w, e, q);
      assert Live(w, q) && q == r;
      assert Live(w, s) ==> InFront(w, s, r);
    }
    if Accepted(e) && u == w.tokens && Before(KeyOf(Arrival(w, e)), KeyOf(r)) {
      ArrivalLives(w, e);
      assert InFront(after, Arrival(w, e), r);
    }
  }

  /** Somebody gets in front of a rider who stays. */
  ghost predicate Overtakes(w: World, e: Event) {
    exists u: nat, r: Seat ::
      Live(w, r) && Live(Act(w, e), r) && Ahead(Act(w, e), u, r.rider.token) && !Ahead(w, u, r.rider.token)
  }

  /** An accepted Enqueue has a smaller key than a waiting or popped rider whom it does not
      remove: a smaller score, or the same score and smaller member bytes. */
  predicate JumpsQueue(w: World, e: Event, r: Seat) {
    Accepted(e) && Live(w, r) && !Removes(w, e, r) && Before(KeyOf(Arrival(w, e)), KeyOf(r))
  }

  /** The Enqueue resets the queue or replaces the rider, and no pair in flight has it. */
  predicate Removes(w: World, e: Event, r: Seat)
    requires Accepted(e)
  {
    (IsReset(w, e.gateway) || r.player == e.player) && !InFlight(w, r)
  }

  predicate InFlight(w: World, r: Seat) {
    exists id, second :: id in w.flights && SeatOf(w.flights[id], second) == r
  }

  lemma RemovesMeans(w: World, e: Event, r: Seat)
    requires Accepted(e) && LiveIssued(w) && Live(w, r)
    ensures Live(Act(w, e), r) <==> !Removes(w, e, r)
  {
    hide Close;
  }

  /** Over every run, exactly when nobody ever gets in front of a rider who stays. */
  lemma FirstComeExactly(events: seq<Event>)
    ensures (forall k :: 0 <= k < |events| ==> !Overtakes(Run(events[..k]), events[k]))
       <==> (forall k, r :: 0 <= k < |events| ==> !JumpsQueue(Run(events[..k]), events[k], r))
  {
    hide Run, Overtakes, JumpsQueue;
    forall k | 0 <= k < |events|
      ensures Overtakes(Run(events[..k]), events[k]) <==> exists r :: JumpsQueue(Run(events[..k]), events[k], r)
    {
      OwnersRun(events[..k]);
      OvertakesExactly(Run(events[..k]), events[k]);
    }
  }

  lemma OvertakesExactly(w: World, e: Event)
    requires OneOwner(w) && LiveIssued(w)
    ensures Overtakes(w, e) <==> exists r :: JumpsQueue(w, e, r)
  {
    hide Live, Act, Before, Removes, OneOwner, LiveIssued, Ahead;
    if Overtakes(w, e) {
      var u: nat, r: Seat :|
        Live(w, r) && Live(Act(w, e), r) && Ahead(Act(w, e), u, r.rider.token) && !Ahead(w, u, r.rider.token);
      OvertakeExactly(w, e, u, r);
      RemovesMeans(w, e, r);
      assert JumpsQueue(w, e, r);
    }
    if r :| JumpsQueue(w, e, r) {
      RemovesMeans(w, e, r);
      OvertakeExactly(w, e, w.tokens, r);
    }
  }

  /** Every Enqueue has a larger score than the ones before it. */
  predicate ScoresIncrease(events: seq<Event>) {
    forall i, j :: 0 <= i < j < |events| && Accepted(events[i]) && Accepted(events[j]) ==>
                     events[i].slot.joinedAt < events[j].slot.joinedAt
  }

  lemma AheadIgnoresClock(w: World, n: nat, u: nat, t: nat)
    ensures Ahead(w.(now := n), u, t) <==> Ahead(w, u, t)
  {
    hide Live, SlotKey;
    forall s ensures Live(w.(now := n), s) <==> Live(w, s) {
      LiveIgnoresClock(w, n, s);
    }
    if Ahead(w, u, t) {
      var s, r :| InFront(w, s, r) && s.rider.token == u && r.rider.token == t;
      assert InFront(w.(now := n), s, r);
    }
    if Ahead(w.(now := n), u, t) {
      var s, r :| InFront(w.(now := n), s, r) && s.rider.token == u && r.rider.token == t;
      assert InFront(w, s, r);
    }
  }

  lemma NoOvertakingStep(events: seq<Event>, e: Event, u: nat, t: nat)
    requires ScoresIncrease(events + [e])
    requires t < Run(events).tokens && Ahead(Step(Run(events), e), u, t)
    ensures Ahead(Run(events), u, t)
  {
    hide Live, Act, Run, Before;
    var w := Run(events);
    AheadIgnoresClock(Act(w, e), w.now + 1, u, t);
    OwnersRun(events);
    var s, r :| InFront(Act(w, e), s, r) && s.rider.token == u && r.rider.token == t;
    LiveBefore(w, e, s);
    LiveBefore(w, e, r);
    if Live(w, s) {
      assert InFront(w, s, r);
    } else {
      LiveFromEnqueue(events, r);
      var i :| 0 <= i < |events| && Accepted(events[i]) && r == Arrival(Run(events[..i]), events[i]);
      assert (events + [e])[i] == events[i] && (events + [e])[|events|] == e;
      assert KeyOf(r).score < KeyOf(s).score;
      ScoreDecides(KeyOf(r), KeyOf(s));
    }
  }

  lemma ScoreDecides(a: Key, b: Key)
    requires a.score < b.score
    ensures Before(a, b) && !Before(b, a)
  {
  }

  /** No overtaking, over every run and whatever fails: if Enqueue scores increase, the
      tokens in front of a player never grow from the moment the player joined. */
  lemma {:induction false} NoOvertaking(events: seq<Event>, i: nat, u: nat, t: nat)
    requires ScoresIncrease(events) && i <= |events|
    requires t < Run(events[..i]).tokens && Ahead(Run(events), u, t)
    ensures Ahead(Run(events[..i]), u, t)
    decreases |events|
  {
    if i == |events| {
      assert events[..i] == events;
    } else {
      hide Step, Ahead;
      var n := |events| - 1;
      assert events[..n] + [events[n]] == events;
      assert events[..n][..i] == events[..i];
      TokensGrow(events[..n], i);
      NoOvertakingStep(events[..n], events[n], u, t);
      NoOvertaking(events[..n], i, u, t);
    }
  }

  /** After a pop, whoever is in front of a popped player is not waiting: they are in
      flight too. */
  lemma PopLeavesNobodyAhead(w: World, second: bool, p: PlayerID)
    requires |Slots(w.line)| >= 2 && p in Act(w, Pop).line
    ensures w.now in Act(w, Pop).flights
    ensures Before(KeyOf(SeatOf(Act(w, Pop).flights[w.now], second)), KeyOf(Seat(p, Act(w, Pop).line[p])))
  {
    hide MemberOf, Before, IsFront;
    var waiting := Slots(w.line);
    PopTakesLeast(waiting, p);
    var a, b := Front(waiting), Second(waiting);
    BeforeTransitive(SlotKey(a, waiting[a]), SlotKey(b, waiting[b]), SlotKey(p, waiting[p]));
  }

  /** Increasing scores are needed.  In this run a player waits, another one joins in the
      same millisecond under the same gateway, and the order of their member bytes puts the
      later one in front; the next pop serves the later one first. */
  lemma SameMillisecondOvertakes()
    ensures exists events: seq<Event>, e: Event, r: Seat ::
              var w := Run(events);
              var after := Step(w, e);
              && Accepted(e) && e.slot.joinedAt == r.rider.slot.joinedAt
              && Live(w, r) && Live(after, r) && Ahead(after, w.tokens, r.rider.token)
              && after.now in Step(after, Pop).flights
              && Step(after, Pop).flights[after.now].first.rider.token == w.tokens
              && Step(after, Pop).flights[after.now].second == r
  {
    var slot := Slot(1, 1, [], 0);
    var events := [Enqueue([98], slot, [103])];
    var e, r := Enqueue([97], slot, [103]), Seat([98], Tagged(slot, 0, [103]));
    FirstWaits(events, slot);
    var w := Run(events);
    assert [] + events == events;
    SecondJoinsInFront(w, e, r);
  }

  lemma FirstWaits(events: seq<Event>, slot: Slot)
    requires events == [Enqueue([98], slot, [103])]
    ensures Run(events) == World(map[[98] := Tagged(slot, 0, [103])], Some([103]), map[], 1, [103], {}, 1)
  {
    hide TakePair, Return, MemberOf;
    RunSnoc([], events[0]);
    assert [] + [events[0]] == events;
    assert Run([]) == START;
  }

  lemma SecondJoinsInFront(w: World, e: Event, r: Seat)
    requires e.Enqueue? && e.player == [97] && e.gateway == [103]
    requires r.player == [98] && r.rider == Tagged(e.slot, 0, [103])
    requires w == World(map[[98] := r.rider], Some([103]), map[], 1, [103], {}, 1)
    ensures var after := Step(w, e);
            && Accepted(e) && Live(w, r) && Live(after, r) && Ahead(after, w.tokens, r.rider.token)
            && after.now in Step(after, Pop).flights
            && Step(after, Pop).flights[after.now].first.rider.token == w.tokens
            && Step(after, Pop).flights[after.now].second == r
  {
    var after, s := Step(w, e), Arrival(w, e);
    assert MemberOf([97], e.slot)[0] == 97 && MemberOf([98], e.slot)[0] == 98;
    assert Before(KeyOf(s), KeyOf(r));
    hide Before, MemberOf, TakePair;
    var empty: Line := map[];
    var one: Line := empty[s.player := s.rider];
    assert after.line == one[r.player := r.rider];
    LiveLine(after, [97]);
    LiveLine(after, [98]);
    assert InFront(after, s, r);
    TakeTwo(after, empty, s, r);
  }

  // ------------------------------------------------- pop, write back, pop

  /** The other pair is of other players, and both its keys come after this pair's. */
  predicate AllAfter(other: Flight, f: Flight) {
    forall second ::
      var s := SeatOf(other, second);
      s.player != f.first.player && s.player != f.second.player && Before(KeyOf(f.second), KeyOf(s))
  }

  /** Events that leave a popped pair's place at the front free: its own failed attempts,
      applied or not, and whatever brings in only later entries of other players. */
  predicate Quiet(w: World, e: Event, id: nat, f: Flight) {
    match e
    case Enqueue(player, slot, _) =>
      Accepted(e) ==>
        player != f.first.player && player != f.second.player && Before(KeyOf(f.second), SlotKey(player, slot))
    case WriteBack(other, net) =>
      if other == id then !net.Delivered? else other in w.flights ==> AllAfter(w.flights[other], f)
    case PublishOk(other) => other != id
    case GiveUp(other) => other != id
    case _ => true
  }

  ghost predicate AllQuiet(w: World, mid: seq<Event>, id: nat, f: Flight) {
    forall i :: 0 <= i < |mid| ==> Quiet(RunFrom(w, mid[..i]), mid[i], id, f)
  }

  /** The pair is in flight, and whoever waits comes after it or is a copy of it that a
      failed attempt put back. */
  ghost predicate Reserved(w: World, id: nat, f: Flight) {
    && id < w.now
    && id in w.flights && w.flights[id].(failing := f.failing) == f
    && forall p :: p in w.line ==> Spared(f, p, w.line[p])
  }

  predicate Spared(f: Flight, p: PlayerID, t: Tagged) {
    if p == f.second.player then t == f.second.rider
    else if p == f.first.player then t == f.first.rider
    else Before(KeyOf(f.second), KeyOf(Seat(p, t)))
  }

  lemma QuietPop(w: World, id: nat, f: Flight)
    requires Reserved(w, id, f)
    ensures Reserved(Step(w, Pop), id, f) && Reserved(Step(w, PopUnanswered), id, f)
  {
    hide Spared, IsFront, Close;
    assert Slots(w.line).Keys == w.line.Keys;
  }

  lemma QuietEnqueue(w: World, e: Event, id: nat, f: Flight)
    requires Reserved(w, id, f) && Quiet(w, e, id, f) && e.Enqueue?
    ensures Reserved(Step(w, e), id, f)
  {
    hide Before, SlotKey, Close, TakePair, Return, Slots;
  }

  lemma QuietFlight(w: World, e: Event, id: nat, f: Flight)
    requires Reserved(w, id, f) && Quiet(w, e, id, f) && (e.PublishOk? || e.PublishFail? || e.GiveUp?)
    ensures Reserved(Step(w, e), id, f)
  {
    hide Spared, Close, TakePair, Return, Admit, Slots, Leave;
  }

  lemma QuietBack(w: World, e: Event, id: nat, f: Flight)
    requires Reserved(w, id, f) && Quiet(w, e, id, f) && e.WriteBack?
    ensures Reserved(Step(w, e), id, f)
  {
    hide Before, SlotKey, Close, TakePair, Admit, Slots, Leave;
    if e.flight in w.flights && e.flight != id {
      assert SeatOf(w.flights[e.flight], false) == w.flights[e.flight].first;
      assert SeatOf(w.flights[e.flight], true) == w.flights[e.flight].second;
    }
  }

  lemma QuietStep(w: World, e: Event, id: nat, f: Flight)
    requires Reserved(w, id, f) && Quiet(w, e, id, f)
    ensures Reserved(Step(w, e), id, f)
  {
    match e
    case Pop => QuietPop(w, id, f);
    case PopUnanswered => QuietPop(w, id, f);
    case Enqueue(_, _, _) => QuietEnqueue(w, e, id, f);
    case PublishOk(_) => QuietFlight(w, e, id, f);
    case PublishFail(_) => QuietFlight(w, e, id, f);
    case GiveUp(_) => QuietFlight(w, e, id, f);
    case WriteBack(_, _) => QuietBack(w, e, id, f);
    case _ => hide Spared, Close, TakePair, Return, Admit, Slots, End;
  }

  lemma {:induction false} QuietRun(w: World, mid: seq<Event>, id: nat, f: Flight)
    requires Reserved(w, id, f) && AllQuiet(w, mid, id, f)
    ensures Reserved(RunFrom(w, mid), id, f)
    decreases |mid|
  {
    if mid != [] {
      hide Reserved, Step, Quiet;
      var n := |mid| - 1;
      forall i | 0 <= i < n ensures Quiet(RunFrom(w, mid[..n][..i]), mid[..n][i], id, f) {
        assert mid[..n][..i] == mid[..i];
      }
      QuietRun(w, mid[..n], id, f);
      QuietStep(RunFrom(w, mid[..n]), mid[n], id, f);
    }
  }

  /** If, between a pop and a write-back that finds the same identifier, only later entries
      of other players came in, by Enqueue or by write-back, then the next pop returns the
      same pair in the same order with the same gateway, whatever attempts failed before. */
  lemma SamePairAgain(w: World, mid: seq<Event>)
    requires |Slots(w.line)| >= 2
    requires AllQuiet(Step(w, Pop), mid, w.now, Step(w, Pop).flights[w.now])
    requires var w2 := RunFrom(Step(w, Pop), mid);
             w.now in w2.flights && w2.flights[w.now].failing && Matches(w2, w2.flights[w.now])
    ensures var f := Step(w, Pop).flights[w.now];
            var back := Step(RunFrom(Step(w, Pop), mid), WriteBack(w.now, Delivered));
            var again := Step(back, Pop);
            && back.now in again.flights
            && again.flights[back.now] == f.(epoch := back.tokens)
  {
    hide Before, MemberOf, IsFront, RunFrom;
    var id, w1 := w.now, Step(w, Pop);
    var f := w1.flights[id];
    var waiting := Slots(w.line);
    forall p | p in w1.line ensures Spared(f, p, w1.line[p]) {
      PopTakesLeast(waiting, p);
    }
    assert Reserved(w1, id, f);
    QuietRun(w1, mid, id, f);
    FrontBeforeSecond(waiting);
    WriteBackPops(RunFrom(w1, mid), id, f);
  }

  lemma FrontBeforeSecond(waiting: Waiting)
    requires |waiting| >= 2
    ensures Before(SlotKey(Front(waiting), waiting[Front(waiting)]), SlotKey(Second(waiting), waiting[Second(waiting)]))
  {
    hide Before, MemberOf;
  }

  lemma BackInLine(w: World, id: nat, f: Flight)
    requires id in w.flights && w.flights[id].failing && w.flights[id].(failing := f.failing) == f
    requires HeldText(w.held) == f.gateway
    ensures var back := Step(w, WriteBack(id, Delivered));
            && back.held == w.held
            && back.line == w.line[f.first.player := f.first.rider][f.second.player := f.second.rider]
  {
    hide Close;
  }

  lemma WriteBackPops(w: World, id: nat, f: Flight)
    requires Reserved(w, id, f) && w.flights[id].failing && HeldText(w.held) == f.gateway && !f.failing
    requires f.first.player != f.second.player && Before(KeyOf(f.first), KeyOf(f.second))
    ensures var back := Step(w, WriteBack(id, Delivered));
            var again := Step(back, Pop);
            && back.now in again.flights
            && again.flights[back.now] == f.(epoch := back.tokens)
  {
    hide Before, Return, TakePair;
    BackInLine(w, id, f);
    var others: Line := map p | p in w.line && p != f.first.player && p != f.second.player :: w.line[p];
    var back := Step(w, WriteBack(id, Delivered));
    assert back.line == others[f.first.player := f.first.rider][f.second.player := f.second.rider];
    TakeTwo(back, others, f.first, f.second);
  }
}
