/** The matcher seen from the protocol: a tick, with whatever others do between its calls,
    is a run of events, and so is the whole service. */
module TickEvents {
  import opened SortedSet
  import opened Waiting
  import opened Protocol
  import opened Ambiguity
  import opened Circuit
  import opened Retry
  import opened Matcher
  import opened R = RedisQueue
  import T = Ticks

  // ------------------------------------------------------------ wire runs

  ghost function WireFrom(c: Wire, events: seq<Event>): Wire
    decreases |events|
  {
    if events == [] then c else WireFrom(WireStep(c, events[0]), events[1..])
  }

  lemma {:induction false} WireRunMore(before: seq<Event>, more: seq<Event>)
    ensures WireRun(before + more) == WireFrom(WireRun(before), more)
    decreases |more|
  {
    hide WireStep;
    if more == [] {
      assert before + more == before;
    } else {
      var next := before + [more[0]];
      assert next[..|before|] == before;
      assert before + more == next + more[1..];
      WireRunMore(next, more[1..]);
    }
  }

  lemma {:induction false} WireFromMore(c: Wire, a: seq<Event>, b: seq<Event>)
    ensures WireFrom(c, a + b) == WireFrom(WireFrom(c, a), b)
    decreases |a|
  {
    hide WireStep;
    if a == [] {
      assert a + b == b;
    } else {
      assert (a + b)[1..] == a[1..] + b;
      WireFromMore(WireStep(c, a[0]), a[1..], b);
    }
  }

  lemma WireFromOne(c: Wire, e: Event)
    ensures WireFrom(c, [e]) == WireStep(c, e)
  {
    hide WireStep;
    assert [e][1..] == [];
    assert WireFrom(WireStep(c, e), []) == WireStep(c, e);
  }

  lemma OutsideStep(c: Wire, e: Outside)
    ensures WireStep(c, e) == Wire(Disturb(c.store, e), c.flights, c.now + 1)
  {
    hide Disturb;
  }

  /** What others do changes the store and nothing else. */
  lemma {:induction false} OutsideRun(c: Wire, others: seq<Outside>)
    ensures WireFrom(c, others) == Wire(DisturbAll(c.store, others), c.flights, c.now + |others|)
    decreases |others|
  {
    hide WireStep, Disturb;
    if others != [] {
      OutsideStep(c, others[0]);
      OutsideRun(WireStep(c, others[0]), others[1..]);
    }
  }

  // ----------------------------------------------------- write-back events

  /** A call of a write-back: what others do before it, and the call. */
  function CallEvents(id: nat, others: seq<Outside>, net: Net): seq<Event> {
    others + [WriteBack(id, net)]
  }

  /** The events of a write-back from attempt k on: its calls, and the loss record if the
      last one failed. */
  function RetryEvents(k: nat, id: nat, s: Store, p: Popped, env: nat -> Weather, last: Resort): seq<Event>
    requires 1 <= k <= MAX_ATTEMPTS
    decreases MAX_ATTEMPTS - k
  {
    var met := DisturbAll(s, env(k).others);
    CallEvents(id, env(k).others, env(k).net)
    + if ReplyTo(met, p, env(k).net) != Failed then []
      else if Noticed(k, env(k).stop) then
        CallEvents(id, last.others, last.net) + if last.net.Delivered? then [] else [GiveUp(id)]
      else if k == MAX_ATTEMPTS then [GiveUp(id)]
      else RetryEvents(k + 1, id, Called(met, p, env(k).net), p, env, last)
  }

  /** The pair is in flight, alone, and being written back. */
  ghost predicate Retrying(c: Wire, id: nat, p: Popped) {
    FirstInvalid(p.entries).None? && c.flights == map[id := Cargo(p.entries, p.gateway, true)]
  }

  lemma OneCall(c: Wire, id: nat, p: Popped, others: seq<Outside>, net: Net)
    requires Retrying(c, id, p)
    ensures var met := DisturbAll(c.store, others);
            var after := WireFrom(c, CallEvents(id, others, net));
            && after.store == Called(met, p, net)
            && (net.Delivered? ==> after.flights == map[])
            && (!net.Delivered? ==> Retrying(after, id, p))
            && (ReplyTo(met, p, net) == Failed <==> !net.Delivered?)
  {
    hide FirstInvalid, ReenqueueScript, TriplesOf, DisturbAll;
    OutsideRun(c, others);
    WireFromMore(c, others, [WriteBack(id, net)]);
    WireFromOne(WireFrom(c, others), WriteBack(id, net));
  }

  lemma GivenUp(c: Wire, id: nat, p: Popped)
    requires Retrying(c, id, p)
    ensures WireFrom(c, [GiveUp(id)]).store == c.store && WireFrom(c, [GiveUp(id)]).flights == map[]
  {
    WireFromOne(c, GiveUp(id));
  }

  /** A write-back, with interference, is its events. */
  lemma {:induction false} RetryOnWire(c: Wire, k: nat, backoff: nat, waited: nat, id: nat, p: Popped,
                                       env: nat -> Weather, last: Resort)
    requires 1 <= k <= MAX_ATTEMPTS && Retrying(c, id, p)
    ensures var after := WireFrom(c, RetryEvents(k, id, c.store, p, env, last));
            after.store == RetryOn(k, backoff, waited, c.store, p, env, last).store && after.flights == map[]
    decreases MAX_ATTEMPTS - k
  {
    hide WireStep, WireFrom, FirstInvalid, DisturbAll, ReplyTo, Called, CallEvents, Retrying;
    var net := env(k).net;
    var met, call := DisturbAll(c.store, env(k).others), CallEvents(id, env(k).others, net);
    var c1 := WireFrom(c, call);
    OneCall(c, id, p, env(k).others, net);
    if net.Delivered? {
      assert call + [] == call;
    } else if Noticed(k, env(k).stop) {
      var resort := CallEvents(id, last.others, last.net);
      OneCall(c1, id, p, last.others, last.net);
      if last.net.Delivered? {
        assert resort + [] == resort;
        WireFromMore(c, call, resort);
      } else {
        WireFromMore(c, call, resort + [GiveUp(id)]);
        WireFromMore(c1, resort, [GiveUp(id)]);
        GivenUp(WireFrom(c1, resort), id, p);
      }
    } else if k == MAX_ATTEMPTS {
      GivenUp(c1, id, p);
      WireFromMore(c, call, [GiveUp(id)]);
    } else {
      RetryOnWire(c1, k + 1, NextBackoff(backoff), waited + backoff, id, p, env, last);
      WireFromMore(c, call, RetryEvents(k + 1, id, c1.store, p, env, last));
    }
  }

  // ------------------------------------------------------------ tick events

  /** What an allowed tick does after its pop, when its pair is flight id. */
  ghost function AfterPop(met: Store, env: TickEnv, id: nat): seq<Event> {
    match PopKindOn(met, env)
    case Pair(Published) => [PublishOk(id)]
    case Pair(PublishFailed(_)) =>
      [PublishFail(id)] + RetryEvents(1, id, PoppedStore(met, env), PopResult(met).value, env.weather, env.last)
    case _ => []
  }

  ghost function PopEvents(met: Store, env: TickEnv, id: nat): seq<Event> {
    match env.popNet
    case NotSent => []
    case ReplyLost => [PopUnanswered]
    case Delivered => [Pop] + AfterPop(met, env, id)
  }

  /** The events of an allowed tick on a store, when its pop is event number id. */
  ghost function EventsOf(s: Store, env: TickEnv, id: nat): seq<Event> {
    env.before + PopEvents(Met(s, env), env, id)
  }

  lemma PopValid(before: seq<Event>)
    ensures PopResult(WireRun(before).store).Ok?
    ensures var p := PopResult(WireRun(before).store).value;
            (p.entries == [] || |p.entries| == 2) && FirstInvalid(p.entries).None?
  {
    hide WireRun, Run, Concrete, PopResult, MemberOf, PopScript, IsFront;
    Refinement(before);
    PopNeverFails(Slots(Run(before).line), Run(before).held);
  }

  /** The store is one that the scripts can build. */
  ghost predicate Sane(s: Store) {
    && PopResult(s).Ok?
    && var p := PopResult(s).value;
       (p.entries == [] || |p.entries| == 2) && FirstInvalid(p.entries).None?
  }

  lemma PopOnWire(c: Wire)
    requires c.flights == map[] && Sane(c.store)
    ensures var p, after := PopResult(c.store).value, WireFrom(c, [Pop]);
            && after.store == PopScript(c.store).after
            && after.flights == if p.entries == [] then map[] else map[c.now := Cargo(p.entries, p.gateway, false)]
  {
    hide PopResult, PopScript;
    WireFromOne(c, Pop);
  }

  lemma PublishOnWire(c: Wire, id: nat, p: Popped)
    requires c.flights == map[id := Cargo(p.entries, p.gateway, false)] && FirstInvalid(p.entries).None?
    ensures WireFrom(c, [PublishOk(id)]).store == c.store && WireFrom(c, [PublishOk(id)]).flights == map[]
    ensures WireFrom(c, [PublishFail(id)]).store == c.store && Retrying(WireFrom(c, [PublishFail(id)]), id, p)
  {
    hide FirstInvalid;
    WireFromOne(c, PublishOk(id));
    WireFromOne(c, PublishFail(id));
  }

  lemma AnsweredOnWire(c: Wire, env: TickEnv)
    requires c.flights == map[] && Sane(c.store) && env.popNet.Delivered?
    ensures var after := WireFrom(c, PopEvents(c.store, env, c.now));
            after.flights == map[] && after.store == StoreAfter(c.store, env)
  {
    hide WireFrom, PopResult, PopScript, FirstInvalid, RetryEvents, RetryOn;
    var p, c1, id := PopResult(c.store).value, WireFrom(c, [Pop]), c.now;
    PopOnWire(c);
    if p.entries == [] {
      assert [Pop] + [] == [Pop];
    } else if env.builds && env.publishes {
      PublishOnWire(c1, id, p);
      WireFromMore(c, [Pop], [PublishOk(id)]);
    } else {
      PublishOnWire(c1, id, p);
      var c2, events := WireFrom(c1, [PublishFail(id)]), RetryEvents(1, id, c1.store, p, env.weather, env.last);
      WireFromMore(c, [Pop], [PublishFail(id)] + events);
      WireFromMore(c1, [PublishFail(id)], events);
      RetryOnWire(c2, 1, INITIAL_BACKOFF, 0, id, p, env.weather, env.last);
    }
  }

  lemma PopEventsOnWire(c: Wire, env: TickEnv)
    requires c.flights == map[] && Sane(c.store)
    ensures var after := WireFrom(c, PopEvents(c.store, env, c.now));
            after.flights == map[] && after.store == StoreAfter(c.store, env)
  {
    hide WriteBackOn, PopResult, PopScript, Sane;
    match env.popNet
    case NotSent =>
    case ReplyLost => WireFromOne(c, PopUnanswered);
    case Delivered =>
      hide PopEvents, StoreAfter, WireFrom;
      AnsweredOnWire(c, env);
  }

  /** After any run that leaves no pair in flight, an allowed tick has the effect of a run
      of protocol events, whatever others do between its calls and whatever fails, and
      again leaves no pair in flight. */
  lemma TickIsEvents(before: seq<Event>, env: TickEnv)
    requires WireRun(before).flights == map[]
    ensures var c := WireRun(before);
            var after := WireRun(before + EventsOf(c.store, env, c.now + |env.before|));
            after.store == TickStore(c.store, env) && after.flights == map[]
  {
    hide WireRun, WireFrom, PopResult, PopEvents, StoreAfter, FirstInvalid, DisturbAll;
    var c := WireRun(before);
    var met := WireFrom(c, env.before);
    OutsideRun(c, env.before);
    WireRunMore(before, env.before);
    PopValid(before + env.before);
    PopEventsOnWire(met, env);
    WireRunMore(before, EventsOf(c.store, env, c.now + |env.before|));
    WireFromMore(c, env.before, PopEvents(met.store, env, met.now));
  }

  // ------------------------------------------------------- the whole service

  /** The breaker, the store, the matches published, how many pairs were recorded lost and
      dropped, and the events so far. */
  datatype Service = Service(breaker: Breaker, store: Store, matches: seq<seq<MatchedPlayer>>,
                             lost: nat, dropped: nat, events: seq<Event>)

  /** What RunTick does to its breaker and its queue, tick after tick. */
  ghost function Serve(s: Settings, envs: seq<TickEnv>): Service
    decreases |envs|
  {
    if envs == [] then Service(CLOSED, WIRE_START.store, [], 0, 0, [])
    else ServeNext(s, Serve(s, envs[..|envs| - 1]), envs[|envs| - 1])
  }

  ghost function ServeNext(s: Settings, v: Service, env: TickEnv): Service {
    var b := T.TickEffect(s, v.breaker, TickOn(v.store, env));
    if Allows(s, v.breaker, env.start)
    then
      var met := Met(v.store, env);
      Service(b, TickStore(v.store, env), v.matches + TickMatch(v.store, env),
              v.lost + LostBy(met, env), v.dropped + DroppedBy(met, env),
              v.events + EventsOf(v.store, env, |v.events| + |env.before|))
    else v.(breaker := b)
  }

  /** A matcher on a fresh queue and breaker, tick after tick. */
  method ServeAll(m: Matcher, envs: seq<TickEnv>)
    requires m.queue.State() == WIRE_START.store && m.circuit.State() == CLOSED
    requires m.published == [] && m.lostPairs == 0 && m.droppedPairs == 0
    modifies m, m.queue, m.circuit
    ensures var v := Serve(m.circuit.Config(), envs);
            && m.circuit.State() == v.breaker && m.queue.State() == v.store
            && m.published == v.matches && m.lostPairs == v.lost && m.droppedPairs == v.dropped
  {
    hide T.TickEffect, TickOn, TickStore, TickMatch, LostBy, DroppedBy, EventsOf, Allows, Met, LogsSkip,
         Concrete, RightMatches;
    ghost var s := m.circuit.Config();
    var i := 0;
    while i < |envs|
      invariant 0 <= i <= |envs|
      invariant var v := Serve(s, envs[..i]);
                && m.circuit.State() == v.breaker && m.queue.State() == v.store
                && m.published == v.matches && m.lostPairs == v.lost && m.droppedPairs == v.dropped
    {
      assert envs[..i + 1][..i] == envs[..i];
      m.RunTick(envs[i]);
      i := i + 1;
    }
    assert envs[..i] == envs;
  }

  lemma {:induction false} WireCounts(events: seq<Event>)
    ensures WireRun(events).now == |events|
    decreases |events|
  {
    if events != [] {
      hide WireAct;
      WireCounts(events[..|events| - 1]);
    }
  }

  predicate NoPop(events: seq<Event>) { forall i :: 0 <= i < |events| ==> !events[i].Pop? }

  lemma SequentialMore(before: seq<Event>, more: seq<Event>)
    requires Sequential(before) && (NoPop(more) || (Run(before).flights == map[] && more != [] && NoPop(more[1..])))
    ensures Sequential(before + more)
  {
    hide Run;
    var all := before + more;
    forall i | 0 <= i < |all| ensures Alone(Run(all[..i]), all[i]) {
      if i < |before| {
        assert all[..i] == before[..i] && Alone(Run(before[..i]), before[i]);
      } else if i > |before| {
        assert all[i] == more[1..][i - |before| - 1];
      } else {
        assert all[..i] == before && all[i] == more[0];
      }
    }
  }

  lemma {:induction false} RetryPopsNothing(k: nat, id: nat, s: Store, p: Popped, env: nat -> Weather, last: Resort)
    requires 1 <= k <= MAX_ATTEMPTS
    ensures NoPop(RetryEvents(k, id, s, p, env, last))
    decreases MAX_ATTEMPTS - k
  {
    hide DisturbAll, ReplyTo, Called;
    var met := DisturbAll(s, env(k).others);
    if k < MAX_ATTEMPTS {
      RetryPopsNothing(k + 1, id, Called(met, p, env(k).net), p, env, last);
    }
  }

  lemma OnePop(met: Store, env: TickEnv, id: nat)
    ensures var es := PopEvents(met, env, id); NoPop(es) || (es != [] && NoPop(es[1..]))
  {
    hide RetryEvents, PopResult, PopScript, PoppedStore;
    if PopResult(met).Ok? {
      RetryPopsNothing(1, id, PoppedStore(met, env), PopResult(met).value, env.weather, env.last);
    }
  }

  lemma FlightsAgree(events: seq<Event>)
    ensures WireRun(events).flights == map[] <==> Run(events).flights == map[]
  {
    hide WireRun, Run, Concrete;
    Refinement(events);
    var w := Run(events);
    if w.flights != map[] {
      var id :| id in w.flights;
      assert id in WireOf(w).flights;
    }
  }

  lemma TickStaysSequential(before: seq<Event>, env: TickEnv, s: Store, id: nat)
    requires Sequential(before) && WireRun(before).flights == map[]
    ensures Sequential(before + EventsOf(s, env, id))
  {
    hide WireRun, Run, Sequential, PopEvents, WireFrom, DisturbAll;
    var es := PopEvents(Met(s, env), env, id);
    WireRunMore(before, env.before);
    OutsideRun(WireRun(before), env.before);
    FlightsAgree(before + env.before);
    OnePop(Met(s, env), env, id);
    SequentialMore(before, env.before);
    SequentialMore(before + env.before, es);
    assert before + (env.before + es) == before + env.before + es;
  }

  /** The whole service, over any sequence of ticks with anything done by others in between
      and anything failing, is a run of the protocol that holds at most one pair at a time. */
  lemma {:induction false} ServiceIsRun(s: Settings, envs: seq<TickEnv>)
    ensures var v := Serve(s, envs);
            && WireRun(v.events).store == v.store && WireRun(v.events).flights == map[]
            && Sequential(v.events)
    decreases |envs|
  {
    hide WireRun, Run, EventsOf, TickStore, TickOn, T.TickEffect, Allows, Sequential;
    if envs == [] {
      EmptyService();
    } else {
      var v, env := Serve(s, envs[..|envs| - 1]), envs[|envs| - 1];
      ServiceIsRun(s, envs[..|envs| - 1]);
      WireCounts(v.events);
      TickIsEvents(v.events, env);
      TickStaysSequential(v.events, env, v.store, |v.events| + |env.before|);
    }
  }

  lemma EmptyService()
    ensures WireRun([]) == WIRE_START && Sequential([])
  {
  }

  /** So the service never publishes one Enqueue twice, whatever failed write-backs took
      effect. */
  lemma ServicePublishesOnce(s: Settings, envs: seq<TickEnv>, c: Closing, d: Closing)
    requires var w := Run(Serve(s, envs).events);
             c in w.closed && d in w.closed && c.fate == d.fate == Fate.Published && c.token == d.token
    ensures c == d
  {
    hide Run, Serve, Sequential;
    ServiceIsRun(s, envs);
    SequentialPublishesOnce(Serve(s, envs).events, c, d);
  }
}
