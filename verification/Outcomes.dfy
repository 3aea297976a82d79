/** What became of every popped pair, told three ways: by the matcher's records, by the
    decoded pairs on the wire, and by the riders whose tokens were closed. */
module Outcomes {
  import opened Bytes
  import opened Member
  import opened SortedSet
  import opened Waiting
  import opened Protocol
  import opened Riders
  import opened Conservation
  import opened Circuit
  import opened Retry
  import opened Matcher
  import opened TickEvents
  import opened R = RedisQueue
  import T = Ticks

  // ----------------------------------------------------------- on the wire

  /** Event e ends the pair of flight id with this fate. */
  predicate WireEnds(c: Wire, e: Event, fate: Fate, id: nat) {
    id in c.flights &&
    match fate
    case Published => e == PublishOk(id) && !c.flights[id].failing
    case Lost => e == GiveUp(id) && c.flights[id].failing
    case Dropped =>
      && e == WriteBack(id, Delivered) && c.flights[id].failing
      && FirstInvalid(c.flights[id].entries).None? && HeldText(c.store.instance) != c.flights[id].gateway
    case _ => false
  }

  predicate Final(fate: Fate) { fate.Published? || fate.Lost? || fate.Dropped? }

  /** The flight that the event is about. */
  function FlightOf(e: Event): nat {
    match e
    case PublishOk(id) => id
    case PublishFail(id) => id
    case WriteBack(id, _) => id
    case GiveUp(id) => id
    case _ => 0
  }

  function EndedHere(c: Wire, e: Event, fate: Fate): seq<Cargo> {
    if WireEnds(c, e, fate, FlightOf(e)) then [c.flights[FlightOf(e)]] else []
  }

  /** The decoded pairs that end with this fate, in order. */
  ghost function EndsFrom(c: Wire, events: seq<Event>, fate: Fate): seq<Cargo>
    decreases |events|
  {
    if events == [] then []
    else EndedHere(c, events[0], fate) + EndsFrom(WireStep(c, events[0]), events[1..], fate)
  }

  lemma {:induction false} EndsMore(c: Wire, a: seq<Event>, b: seq<Event>, fate: Fate)
    ensures EndsFrom(c, a + b, fate) == EndsFrom(c, a, fate) + EndsFrom(WireFrom(c, a), b, fate)
    decreases |a|
  {
    hide WireStep, EndedHere;
    if a == [] {
      assert a + b == b;
    } else {
      assert (a + b)[1..] == a[1..] + b;
      EndsMore(WireStep(c, a[0]), a[1..], b, fate);
    }
  }

  lemma EndsOne(c: Wire, e: Event, fate: Fate)
    ensures EndsFrom(c, [e], fate) == EndedHere(c, e, fate)
  {
    hide WireStep, EndedHere;
    assert [e][1..] == [];
    assert EndsFrom(WireStep(c, e), [], fate) == [];
  }

  lemma {:induction false} OthersEndNothing(c: Wire, others: seq<Outside>, fate: Fate)
    ensures EndsFrom(c, others, fate) == []
    decreases |others|
  {
    hide WireStep;
    if others != [] {
      OthersEndNothing(WireStep(c, others[0]), others[1..], fate);
    }
  }

  // ---------------------------------------------------- a write-back's end

  function CargoFor(p: Popped): Cargo { Cargo(p.entries, p.gateway, true) }

  lemma CallEnds(c: Wire, id: nat, p: Popped, others: seq<Outside>, net: Net, fate: Fate)
    requires Retrying(c, id, p)
    ensures EndsFrom(c, CallEvents(id, others, net), fate)
         == if fate.Dropped? && ReplyTo(DisturbAll(c.store, others), p, net) == Stale then [CargoFor(p)] else []
  {
    hide FirstInvalid, DisturbAll;
    OutsideRun(c, others);
    OthersEndNothing(c, others, fate);
    EndsMore(c, others, [WriteBack(id, net)], fate);
    EndsOne(WireFrom(c, others), WriteBack(id, net), fate);
    assert [] + [CargoFor(p)] == [CargoFor(p)];
  }

  lemma GiveUpEnds(c: Wire, id: nat, p: Popped, fate: Fate)
    requires Retrying(c, id, p)
    ensures EndsFrom(c, [GiveUp(id)], fate) == if fate.Lost? then [CargoFor(p)] else []
  {
    hide FirstInvalid;
    EndsOne(c, GiveUp(id), fate);
  }

  /** What a verdict says of the pair. */
  function Told(v: Verdict, fate: Fate, p: Popped): seq<Cargo> {
    if (fate.Lost? && IsLoss(v)) || (fate.Dropped? && v.DroppedStale?) then [CargoFor(p)] else []
  }

  lemma {:induction false} RetryEnds(c: Wire, k: nat, backoff: nat, waited: nat, id: nat, p: Popped,
                                     env: nat -> Weather, last: Resort, fate: Fate)
    requires 1 <= k <= MAX_ATTEMPTS && Retrying(c, id, p)
    ensures EndsFrom(c, RetryEvents(k, id, c.store, p, env, last), fate)
         == Told(RetryOn(k, backoff, waited, c.store, p, env, last).report.verdict, fate, p)
    decreases MAX_ATTEMPTS - k
  {
    hide WireStep, WireFrom, EndsFrom, FirstInvalid, DisturbAll, ReplyTo, Called, CallEvents, Retrying, CargoFor;
    var net := env(k).net;
    var met, call := DisturbAll(c.store, env(k).others), CallEvents(id, env(k).others, net);
    var c1 := WireFrom(c, call);
    OneCall(c, id, p, env(k).others, net);
    CallEnds(c, id, p, env(k).others, net, fate);
    if net.Delivered? {
      assert call + [] == call;
    } else if Noticed(k, env(k).stop) {
      var resort := CallEvents(id, last.others, last.net);
      OneCall(c1, id, p, last.others, last.net);
      CallEnds(c1, id, p, last.others, last.net, fate);
      if last.net.Delivered? {
        assert resort + [] == resort;
        EndsMore(c, call, resort, fate);
      } else {
        EndsMore(c, call, resort + [GiveUp(id)], fate);
        EndsMore(c1, resort, [GiveUp(id)], fate);
        GiveUpEnds(WireFrom(c1, resort), id, p, fate);
      }
    } else if k == MAX_ATTEMPTS {
      GiveUpEnds(c1, id, p, fate);
      EndsMore(c, call, [GiveUp(id)], fate);
    } else {
      RetryEnds(c1, k + 1, NextBackoff(backoff), waited + backoff, id, p, env, last, fate);
      EndsMore(c, call, RetryEvents(k + 1, id, c1.store, p, env, last), fate);
    }
  }

  // ------------------------------------------------------------ a tick's end

  /** The pair that an allowed tick ends with this fate, by what it met. */
  ghost function TickEnds(met: Store, env: TickEnv, fate: Fate): seq<Cargo> {
    match PopKindOn(met, env)
    case Pair(Published) =>
      var p := PopResult(met).value;
      if fate.Published? then [Cargo(p.entries, p.gateway, false)] else []
    case Pair(PublishFailed(_)) =>
      var p := PopResult(met).value;
      Told(WriteBackOn(PoppedStore(met, env), p, env.weather, env.last).report.verdict, fate, p)
    case _ => []
  }

  lemma PublishEnds(c: Wire, id: nat, p: Popped, fate: Fate)
    requires c.flights == map[id := Cargo(p.entries, p.gateway, false)]
    ensures EndsFrom(c, [PublishOk(id)], fate) == if fate.Published? then [Cargo(p.entries, p.gateway, false)] else []
    ensures EndsFrom(c, [PublishFail(id)], fate) == []
  {
    EndsOne(c, PublishOk(id), fate);
    EndsOne(c, PublishFail(id), fate);
  }

  lemma AnsweredEnds(c: Wire, env: TickEnv, fate: Fate)
    requires c.flights == map[] && Sane(c.store) && env.popNet.Delivered?
    ensures EndsFrom(c, PopEvents(c.store, env, c.now), fate) == TickEnds(c.store, env, fate)
  {
    hide WireFrom, EndsFrom, PopResult, PopScript, FirstInvalid, RetryEvents, RetryOn, Told;
    var p, c1, id := PopResult(c.store).value, WireFrom(c, [Pop]), c.now;
    PopOnWire(c);
    EndsOne(c, Pop, fate);
    if p.entries == [] {
      assert [Pop] + [] == [Pop];
    } else if env.builds && env.publishes {
      PublishEnds(c1, id, p, fate);
      EndsMore(c, [Pop], [PublishOk(id)], fate);
    } else {
      PublishOnWire(c1, id, p);
      PublishEnds(c1, id, p, fate);
      var c2, events := WireFrom(c1, [PublishFail(id)]), RetryEvents(1, id, c1.store, p, env.weather, env.last);
      EndsMore(c, [Pop], [PublishFail(id)] + events, fate);
      EndsMore(c1, [PublishFail(id)], events, fate);
      RetryEnds(c2, 1, INITIAL_BACKOFF, 0, id, p, env.weather, env.last, fate);
    }
  }

  lemma PopEnds(c: Wire, env: TickEnv, fate: Fate)
    requires c.flights == map[] && Sane(c.store)
    ensures EndsFrom(c, PopEvents(c.store, env, c.now), fate) == TickEnds(c.store, env, fate)
  {
    hide WriteBackOn, PopResult, PopScript, Sane;
    match env.popNet
    case NotSent =>
    case ReplyLost => EndsOne(c, PopUnanswered, fate);
    case Delivered =>
      hide PopEvents, TickEnds, EndsFrom;
      AnsweredEnds(c, env, fate);
  }

  lemma TickEndsOnWire(before: seq<Event>, env: TickEnv, fate: Fate)
    requires WireRun(before).flights == map[]
    ensures var c := WireRun(before);
            EndsFrom(c, EventsOf(c.store, env, c.now + |env.before|), fate) == TickEnds(Met(c.store, env), env, fate)
  {
    hide WireRun, WireFrom, EndsFrom, PopResult, PopEvents, TickEnds, FirstInvalid, DisturbAll;
    var c := WireRun(before);
    var met := WireFrom(c, env.before);
    OutsideRun(c, env.before);
    WireRunMore(before, env.before);
    PopValid(before + env.before);
    PopEnds(met, env, fate);
    OthersEndNothing(c, env.before, fate);
    EndsMore(c, env.before, PopEvents(met.store, env, met.now), fate);
    assert [] + TickEnds(met.store, env, fate) == TickEnds(met.store, env, fate);
  }

  // --------------------------------------------------- the matcher's records

  /** The matches that these pairs make. */
  function MatchesOf(cargos: seq<Cargo>): (ms: seq<seq<MatchedPlayer>>)
    ensures |ms| == |cargos| && forall i :: 0 <= i < |cargos| ==> ms[i] == PlayersOf(cargos[i].entries)
  {
    if cargos == [] then []
    else
      var n := |cargos| - 1;
      MatchesOf(cargos[..n]) + [PlayersOf(cargos[n].entries)]
  }

  lemma MatchesOfMore(a: seq<Cargo>, b: seq<Cargo>)
    ensures MatchesOf(a + b) == MatchesOf(a) + MatchesOf(b)
  {
    forall i | 0 <= i < |a + b| ensures MatchesOf(a + b)[i] == (MatchesOf(a) + MatchesOf(b))[i] {
    }
  }

  lemma TickRecords(s: Store, env: TickEnv)
    ensures TickMatch(s, env) == MatchesOf(TickEnds(Met(s, env), env, Fate.Published))
    ensures LostBy(Met(s, env), env) == |TickEnds(Met(s, env), env, Fate.Lost)|
    ensures DroppedBy(Met(s, env), env) == |TickEnds(Met(s, env), env, Fate.Dropped)|
  {
    hide PopResult, PopScript, WriteBackOn, PlayersOf, DisturbAll;
    var met := Met(s, env);
    if PopKindOn(met, env) == T.Pair(T.Published) {
      var p := PopResult(met).value;
      var one := TickEnds(met, env, Fate.Published);
      assert one == [Cargo(p.entries, p.gateway, false)];
      assert MatchesOf(one) == [PlayersOf(p.entries)];
    }
  }

  lemma {:induction false} RecordsOnWire(s: Settings, envs: seq<TickEnv>)
    ensures var v := Serve(s, envs);
            && v.matches == MatchesOf(EndsFrom(WIRE_START, v.events, Fate.Published))
            && v.lost == |EndsFrom(WIRE_START, v.events, Fate.Lost)|
            && v.dropped == |EndsFrom(WIRE_START, v.events, Fate.Dropped)|
    decreases |envs|
  {
    hide WireRun, WireFrom, EndsFrom, EventsOf, TickStore, TickOn, T.TickEffect, Allows, TickEnds, TickMatch,
         LostBy, DroppedBy, Met, MatchesOf;
    if envs == [] {
      NothingEnded();
    } else {
      var v, env := Serve(s, envs[..|envs| - 1]), envs[|envs| - 1];
      RecordsOnWire(s, envs[..|envs| - 1]);
      ServiceIsRun(s, envs[..|envs| - 1]);
      WireCounts(v.events);
      StartRun(v.events);
      TickRecords(v.store, env);
      var more := EventsOf(v.store, env, |v.events| + |env.before|);
      forall fate ensures EndsFrom(WIRE_START, v.events + more, fate)
                       == EndsFrom(WIRE_START, v.events, fate) + TickEnds(Met(v.store, env), env, fate)
      {
        TickEndsOnWire(v.events, env, fate);
        EndsMore(WIRE_START, v.events, more, fate);
      }
      MatchesOfMore(EndsFrom(WIRE_START, v.events, Fate.Published), TickEnds(Met(v.store, env), env, Fate.Published));
    }
  }

  lemma NothingEnded()
    ensures forall fate :: EndsFrom(WIRE_START, [], fate) == []
    ensures MatchesOf([]) == []
  {
  }

  lemma StartRun(events: seq<Event>)
    ensures WireFrom(WIRE_START, events) == WireRun(events)
  {
    hide WireStep;
    WireRunMore([], events);
    assert [] + events == events;
  }

  // ------------------------------------------------------ the riders' tokens

  datatype Ended = Ended(at: nat, pair: Flight)

  /** The flight that event e ends with this fate. */
  predicate EndsFlight(w: World, e: Event, fate: Fate, id: nat) {
    id in w.flights &&
    match fate
    case Published => e == PublishOk(id) && !w.flights[id].failing
    case Lost => e == GiveUp(id) && w.flights[id].failing
    case Dropped => e == WriteBack(id, Delivered) && w.flights[id].failing && !Matches(w, w.flights[id])
    case _ => false
  }

  /** The pairs in flight that end with this fate, and when, in order. */
  ghost function EndedPairs(events: seq<Event>, fate: Fate): seq<Ended>
    decreases |events|
  {
    if events == [] then []
    else
      var n := |events| - 1;
      var w, e := Run(events[..n]), events[n];
      EndedPairs(events[..n], fate)
      + if EndsFlight(w, e, fate, FlightOf(e)) then [Ended(n, w.flights[FlightOf(e)])] else []
  }

  lemma StepCloses(w: World, e: Event, fate: Fate)
    requires Final(fate)
    ensures forall c: Closing :: c.fate == fate ==>
              (c in Step(w, e).closed
               <==> c in w.closed
                    || (&& EndsFlight(w, e, fate, FlightOf(e)) && c.at == w.now
                        && c.token in Tokens(w.flights[FlightOf(e)])))
  {
    hide Slots, Front, Second;
  }

  lemma {:induction false} ClockIs(events: seq<Event>)
    ensures Run(events).now == |events|
    decreases |events|
  {
    if events == [] {
      assert Run([]) == START;
    } else {
      hide Act;
      ClockIs(events[..|events| - 1]);
      KeepsNow(Run(events[..|events| - 1]), events[|events| - 1]);
    }
  }

  lemma KeepsNow(w: World, e: Event)
    ensures Act(w, e).now == w.now
  {
    hide Slots, Front, Second, Close;
  }

  predicate Closes(x: Ended, c: Closing) { c.at == x.at && c.token in Tokens(x.pair) }

  ghost predicate SomeCloses(xs: seq<Ended>, c: Closing) {
    exists i :: 0 <= i < |xs| && Closes(xs[i], c)
  }

  lemma SomeClosesMore(xs: seq<Ended>, ys: seq<Ended>, c: Closing)
    requires |ys| <= 1
    ensures SomeCloses(xs + ys, c) <==> SomeCloses(xs, c) || (ys != [] && Closes(ys[0], c))
  {
    hide Closes;
    var all := xs + ys;
    if i :| 0 <= i < |xs| && Closes(xs[i], c) {
      assert all[i] == xs[i];
    }
    if ys != [] {
      assert all[|xs|] == ys[0];
    }
  }

  /** These pairs are exactly the ones whose tokens were closed with that fate at that time. */
  lemma {:induction false} EndedAreClosed(events: seq<Event>, fate: Fate, c: Closing)
    requires Final(fate) && c.fate == fate
    ensures c in Run(events).closed <==> SomeCloses(EndedPairs(events, fate), c)
    decreases |events|
  {
    if events == [] {
      assert Run([]) == START;
    } else {
      hide Step, Tokens, EndsFlight, SomeCloses;
      var n := |events| - 1;
      var w, e := Run(events[..n]), events[n];
      EndedAreClosed(events[..n], fate, c);
      StepCloses(w, e, fate);
      ClockIs(events[..n]);
      var one := if EndsFlight(w, e, fate, FlightOf(e)) then [Ended(n, w.flights[FlightOf(e)])] else [];
      SomeClosesMore(EndedPairs(events[..n], fate), one, c);
    }
  }

  /** Each of them was in flight at that time. */
  lemma {:induction false} EndedFlew(events: seq<Event>, fate: Fate, i: nat)
    requires i < |EndedPairs(events, fate)|
    ensures var x := EndedPairs(events, fate)[i];
            && x.at < |events|
            && exists id :: id in Run(events[..x.at]).flights && Run(events[..x.at]).flights[id] == x.pair
    decreases |events|
  {
    hide Run;
    var n := |events| - 1;
    var before := EndedPairs(events[..n], fate);
    if i < |before| {
      EndedFlew(events[..n], fate, i);
      assert events[..n][..before[i].at] == events[..before[i].at];
    }
  }

  function CargosOf(ended: seq<Ended>): (cs: seq<Cargo>)
    ensures |cs| == |ended| && forall i :: 0 <= i < |ended| ==> cs[i] == CargoOf(ended[i].pair)
  {
    if ended == [] then []
    else
      var n := |ended| - 1;
      CargosOf(ended[..n]) + [CargoOf(ended[n].pair)]
  }

  lemma EndsAlike(w: World, e: Event, fate: Fate)
    ensures EndedHere(WireOf(w), e, fate)
         == if EndsFlight(w, e, fate, FlightOf(e)) then [CargoOf(w.flights[FlightOf(e)])] else []
  {
    hide Concrete, Slots, FirstInvalid;
    if FlightOf(e) in w.flights {
      CargoValid(w.flights[FlightOf(e)]);
    }
  }

  /** The decoded pairs that end on the wire are those of the riders that end. */
  lemma {:induction false} EndsAgree(events: seq<Event>, fate: Fate)
    ensures EndsFrom(WIRE_START, events, fate) == CargosOf(EndedPairs(events, fate))
    decreases |events|
  {
    hide WireRun, Run, WireFrom, EndedHere, EndsFlight, WireOf;
    if events == [] {
    } else {
      var n := |events| - 1;
      var before, e := events[..n], events[n];
      EndsAgree(before, fate);
      StartRun(before);
      Refinement(before);
      EndsAlike(Run(before), e, fate);
      hide EndsFrom;
      EndsOne(WireRun(before), e, fate);
      EndsMore(WIRE_START, before, [e], fate);
      assert before + [e] == events;
    }
  }

  // ------------------------------------------------------------ the service

  /** The match is of this pair, in order. */
  predicate MatchOf(m: seq<MatchedPlayer>, f: Flight) {
    && |m| == 2
    && Names(m[0], f.first.player, f.first.rider.slot)
    && Names(m[1], f.second.player, f.second.rider.slot)
  }

  /** The rider is exactly what an accepted Enqueue, the one that was given its token, brought
      in before. */
  ghost predicate EnqueuedBefore(events: seq<Event>, s: Seat, at: nat) {
    exists i :: 0 <= i < at && i < |events| && Accepted(events[i])
             && events[i].player == s.player && events[i].slot == s.rider.slot && events[i].gateway == s.rider.origin
             && Run(events[..i]).tokens == s.rider.token
  }

  lemma FlightWasEnqueued(events: seq<Event>, at: nat, id: nat, second: bool)
    requires at <= |events| && id in Run(events[..at]).flights
    ensures EnqueuedBefore(events, SeatOf(Run(events[..at]).flights[id], second), at)
  {
    hide Run;
    LiveSeat(Run(events[..at]), id, second);
    var s := SeatOf(Run(events[..at]).flights[id], second);
    LiveFromEnqueue(events[..at], s);
    var i :| 0 <= i < at && Accepted(events[..at][i]) && s == Arrival(Run(events[..at][..i]), events[..at][i]);
    assert events[..at][..i] == events[..i];
  }

  lemma PairNamed(f: Flight)
    ensures MatchOf(PlayersOf(CargoOf(f).entries), f)
  {
    TwoNamed(f.first.player, f.first.rider.slot, f.second.player, f.second.rider.slot);
  }

  /** The matcher's records over any sequence of ticks, with any interference and any failures:
      the k-th published match is the k-th pair of riders whose tokens were closed as
      published, in order and each under their own name, deck and level; they are two different
      players, each exactly as an earlier accepted Enqueue brought them in; and the losses and
      drops recorded are as many as the pairs closed as lost and as dropped. */
  lemma ServiceRecords(s: Settings, envs: seq<TickEnv>)
    ensures var v := Serve(s, envs);
            var published := EndedPairs(v.events, Fate.Published);
            && |v.matches| == |published|
            && (forall k :: 0 <= k < |published| ==>
                  && MatchOf(v.matches[k], published[k].pair)
                  && published[k].pair.first.player != published[k].pair.second.player
                  && EnqueuedBefore(v.events, published[k].pair.first, published[k].at)
                  && EnqueuedBefore(v.events, published[k].pair.second, published[k].at))
            && v.lost == |EndedPairs(v.events, Fate.Lost)|
            && v.dropped == |EndedPairs(v.events, Fate.Dropped)|
  {
    hide Serve, EndedPairs, EndsFrom, PlayersOf, MatchOf, CargoOf, EnqueuedBefore, Run;
    var v := Serve(s, envs);
    var published := EndedPairs(v.events, Fate.Published);
    RecordsOnWire(s, envs);
    EndsAgree(v.events, Fate.Published);
    EndsAgree(v.events, Fate.Lost);
    EndsAgree(v.events, Fate.Dropped);
    forall k | 0 <= k < |published|
      ensures MatchOf(v.matches[k], published[k].pair)
      ensures published[k].pair.first.player != published[k].pair.second.player
      ensures EnqueuedBefore(v.events, published[k].pair.first, published[k].at)
      ensures EnqueuedBefore(v.events, published[k].pair.second, published[k].at)
    {
      PairNamed(published[k].pair);
      EndedFlew(v.events, Fate.Published, k);
      var before := v.events[..published[k].at];
      var id :| id in Run(before).flights && Run(before).flights[id] == published[k].pair;
      NothingVanishes(before);
      FlightWasEnqueued(v.events, published[k].at, id, false);
      FlightWasEnqueued(v.events, published[k].at, id, true);
    }
  }
}
