/** The rate bound on the queue itself: how often a failing service takes a pair out. */
module ServiceRate {
  import opened Bytes
  import opened SortedSet
  import opened Member
  import opened Waiting
  import opened Protocol
  import opened Circuit
  import opened Retry
  import opened Matcher
  import opened TickEvents
  import opened R = RedisQueue
  import T = Ticks

  /** The ticks of a service, as they turn out on the store each of them meets. */
  ghost function TicksOf(s: Settings, envs: seq<TickEnv>): (ticks: seq<T.Tick>)
    ensures |ticks| == |envs|
    decreases |envs|
  {
    if envs == [] then []
    else
      var n := |envs| - 1;
      TicksOf(s, envs[..n]) + [TickOn(Serve(s, envs[..n]).store, envs[n])]
  }

  /** The breaker of the service is that of its ticks, so everything proved of ticks holds
      of the service. */
  lemma {:induction false} ServiceTicks(s: Settings, envs: seq<TickEnv>)
    ensures Serve(s, envs).breaker == T.RunTicks(s, TicksOf(s, envs))
    decreases |envs|
  {
    if envs != [] {
      hide T.TickEffect, TickOn, TickStore, EventsOf;
      var n := |envs| - 1;
      ServiceTicks(s, envs[..n]);
      assert TicksOf(s, envs)[..n] == TicksOf(s, envs[..n]);
    }
  }

  ghost predicate Asks(s: Settings, v: Service, env: TickEnv) { Allows(s, v.breaker, env.start) }

  /** The tick's pop takes a pair out of the store. */
  ghost predicate Takes(s: Settings, v: Service, env: TickEnv) {
    Asks(s, v, env) && PoppedStore(Met(v.store, env), env) != Met(v.store, env)
  }

  /** The ticks from tick `from` on that take a pair out of the store. */
  ghost function Takers(s: Settings, envs: seq<TickEnv>, from: nat): seq<T.Tick>
    decreases |envs|
  {
    if |envs| <= from then []
    else
      var n := |envs| - 1;
      var v := Serve(s, envs[..n]);
      Takers(s, envs[..n], from) + if Takes(s, v, envs[n]) then [TickOn(v.store, envs[n])] else []
  }

  /** Those among them that are not told so. */
  ghost function LostPops(s: Settings, envs: seq<TickEnv>, from: nat): seq<T.Tick>
    decreases |envs|
  {
    if |envs| <= from then []
    else
      var n := |envs| - 1;
      var v := Serve(s, envs[..n]);
      LostPops(s, envs[..n], from)
      + if Takes(s, v, envs[n]) && envs[n].popNet.ReplyLost? then [TickOn(v.store, envs[n])] else []
  }

  lemma PopShrinks(w: Waiting, instance: Option<Text>)
    ensures var s := Store(Concrete(w), instance);
            && PopResult(s).Ok?
            && (PopScript(s).after != s <==> |w| >= 2)
            && |PopResult(s).value.entries| == if |w| >= 2 then 2 else 0
  {
    hide Concrete, PopScript, PopResult, MemberOf, FirstField, Front, Second, IsFront, EntryOf;
    PopNeverFails(w, instance);
    if |w| >= 2 {
      var v := Without(Without(w, Front(w)), Second(w));
      assert Front(w) in w && Front(w) !in v;
      ConcreteSize(w);
      if Concrete(v) == Concrete(w) {
        ConcreteInjective(v, w);
      }
    }
  }

  /** On every reachable store an answered pop takes a pair exactly when it is told one. */
  lemma AnsweredTakes(events: seq<Event>, env: TickEnv)
    ensures var met := WireRun(events).store;
            && (env.popNet.ReplyLost? ==> !PopKindOn(met, env).Pair?)
            && (!env.popNet.ReplyLost? ==> (PoppedStore(met, env) != met <==> PopKindOn(met, env).Pair?))
  {
    hide *;
    Refinement(events);
    StoreOf(Run(events));
    PopShrinks(Slots(Run(events).line), Run(events).held);
    KindOf(WireRun(events).store, env);
  }

  lemma StoreOf(w: World)
    ensures WireOf(w).store == Store(Concrete(Slots(w.line)), w.held)
  {
  }

  lemma KindOf(met: Store, env: TickEnv)
    requires PopResult(met).Ok?
    ensures env.popNet.NotSent? ==> PoppedStore(met, env) == met
    ensures !env.popNet.NotSent? ==> PoppedStore(met, env) == PopScript(met).after
    ensures PopKindOn(met, env).Pair? <==> env.popNet.Delivered? && |PopResult(met).value.entries| == 2
    ensures PopKindOn(met, env).Pair? && !env.publishes ==>
              PopKindOn(met, env) == T.Pair(T.PublishFailed(env.publishFailedAt))
    ensures !env.popNet.Delivered? ==> PopKindOn(met, env) == T.PopFailed(env.popFailedAt)
  {
    hide PopResult, PopScript;
  }

  lemma TakesExactly(s: Settings, envs: seq<TickEnv>, env: TickEnv)
    ensures var v := Serve(s, envs);
            && (env.popNet.ReplyLost? ==> !TickOn(v.store, env).pop.Pair?)
            && (!env.popNet.ReplyLost? ==> (Takes(s, v, env) <==> Asks(s, v, env) && TickOn(v.store, env).pop.Pair?))
  {
    hide Serve, WireRun, WireFrom, PoppedStore, PopKindOn, DisturbAll, Asks;
    MetOnWire(s, envs, env);
    AnsweredTakes(Serve(s, envs).events + env.before, env);
  }

  /** What the pop of the next tick meets. */
  lemma MetOnWire(s: Settings, envs: seq<TickEnv>, env: TickEnv)
    ensures var v := Serve(s, envs); Met(v.store, env) == WireRun(v.events + env.before).store
  {
    hide Serve, WireRun, WireFrom, DisturbAll;
    var v := Serve(s, envs);
    ServiceIsRun(s, envs);
    OutsideRun(WireRun(v.events), env.before);
    WireRunMore(v.events, env.before);
  }

  /** The pairs that leave the queue are those of the answered pops and those whose reply
      was lost, no more and no fewer. */
  lemma {:induction false} TakersCounted(s: Settings, envs: seq<TickEnv>, from: nat)
    ensures |Takers(s, envs, from)| == |T.Answered(s, TicksOf(s, envs), from)| + |LostPops(s, envs, from)|
    ensures LostPops(s, envs, from) == [] ==> Takers(s, envs, from) == T.Answered(s, TicksOf(s, envs), from)
    decreases |envs|
  {
    if |envs| > from {
      hide Serve, TickOn, Takes, Allows, T.RunTicks;
      var n := |envs| - 1;
      TakersCounted(s, envs[..n], from);
      TakesExactly(s, envs[..n], envs[n]);
      ServiceTicks(s, envs[..n]);
      assert TicksOf(s, envs)[..n] == TicksOf(s, envs[..n]);
    }
  }

  /** While no publish succeeds, the pairs that leave the queue are exactly the failures
      that the rate bound counts if and only if no reply of a pop that took one is lost. */
  lemma TakersAreFailures(s: Settings, envs: seq<TickEnv>, from: nat)
    requires T.PublisherDown(TicksOf(s, envs), from)
    ensures Takers(s, envs, from) == T.Failures(s, TicksOf(s, envs), from) <==> LostPops(s, envs, from) == []
  {
    TakersCounted(s, envs, from);
    T.AnsweredAreFailures(s, TicksOf(s, envs), from);
  }

  /** The rate bound on the store: from any tick on after which no publish succeeds and no
      reply of a pop is lost, after the first T pairs at most one pair leaves the queue per
      cooldown, whatever others do. */
  lemma StoreRateBound(s: Settings, envs: seq<TickEnv>, from: nat, k: nat)
    requires ValidSettings(s) && T.InOrder(TicksOf(s, envs)) && T.PublisherDown(TicksOf(s, envs), from)
    requires LostPops(s, envs, from) == [] && s.threshold + k <= |Takers(s, envs, from)|
    ensures var out := Takers(s, envs, from);
            out[s.threshold + k - 1].start >= out[s.threshold - 1].start + k * s.cooldown
  {
    TakersAreFailures(s, envs, from);
    T.RateBound(s, TicksOf(s, envs), from, k);
  }

  // --------------------------------------------- when a reply is lost

  const ANN: PlayerID := [97]
  const BOB: PlayerID := [98]
  const GATEWAY: Text := [103]
  const SLOT: Slot := Slot(1, 1, [], 0)

  const TWO_COME: seq<Outside> := [EvictQueue, Enqueue(ANN, SLOT, GATEWAY), Enqueue(BOB, SLOT, GATEWAY)]

  /** A tick at `start` that meets two players and whose publish fails at once. */
  function Busy(start: int, net: Net): TickEnv {
    TickEnv(start, TWO_COME, net, start, true, false, start,
            (k: nat) => Weather([], Delivered, Stop(false, false)), Resort([], Delivered))
  }

  function BusyTick(start: int, net: Net): T.Tick {
    T.Tick(start, if net.Delivered? then T.Pair(T.PublishFailed(start)) else T.PopFailed(start))
  }

  lemma TwoWait(events: seq<Event>)
    ensures |Slots(Run(events + TWO_COME).line)| == 2
  {
    hide Run, TakePair, Return, Close, Leave;
    var e0, e1, e2 := TWO_COME[0], TWO_COME[1], TWO_COME[2];
    RunSnoc(events, e0);
    RunSnoc(events + [e0], e1);
    RunSnoc(events + [e0] + [e1], e2);
    assert events + TWO_COME == events + [e0] + [e1] + [e2];
    EvictEmpties(Run(events));
    TwoAdmitted(Run(events + [e0]));
  }

  lemma EvictEmpties(w: World)
    ensures Step(w, EvictQueue).line == map[]
  {
  }

  lemma TwoAdmitted(w: World)
    requires w.line == map[]
    ensures |Slots(Step(Step(w, TWO_COME[1]), TWO_COME[2]).line)| == 2
  {
    hide Close, TakePair, Return;
    var line := Step(Step(w, TWO_COME[1]), TWO_COME[2]).line;
    assert Slots(line).Keys == {ANN, BOB};
  }

  lemma BusyTakes(s: Settings, envs: seq<TickEnv>, start: int, net: Net)
    requires !net.NotSent?
    ensures var v := Serve(s, envs);
            TickOn(v.store, Busy(start, net)) == BusyTick(start, net)
            && (Takes(s, v, Busy(start, net)) <==> Asks(s, v, Busy(start, net)))
  {
    hide Serve, WireRun, WireOf, Run, PoppedStore, PopKindOn, DisturbAll, Asks, PopResult, PopScript, Concrete, Slots;
    var v, env := Serve(s, envs), Busy(start, net);
    MetOnWire(s, envs, env);
    var events := v.events + env.before;
    TwoWait(v.events);
    Refinement(events);
    StoreOf(Run(events));
    PopShrinks(Slots(Run(events).line), Run(events).held);
    KindOf(WireRun(events).store, env);
  }

  lemma Snoc(s: Settings, envs: seq<TickEnv>, start: int, net: Net)
    requires !net.NotSent?
    ensures var v, more := Serve(s, envs), envs + [Busy(start, net)];
            && Serve(s, more).breaker == T.TickEffect(s, v.breaker, BusyTick(start, net))
            && TicksOf(s, more) == TicksOf(s, envs) + [BusyTick(start, net)]
            && (Allows(s, v.breaker, start) ==> Takers(s, more, 0) == Takers(s, envs, 0) + [BusyTick(start, net)])
  {
    hide T.TickEffect, Allows, TickStore, EventsOf, TickOn, Takes;
    var env := Busy(start, net);
    assert (envs + [env])[..|envs|] == envs;
    BusyTakes(s, envs, start, net);
  }

  /** One tick of the breaker. */
  lemma FailedPublish(s: Settings, b: Breaker, start: int)
    requires Allows(s, b, start)
    ensures var c := b.(popFailures := 0, publishFailures := b.publishFailures + 1);
            b.publishFailures + 1 < s.threshold && !b.isOpen ==>
              T.TickEffect(s, b, BusyTick(start, Delivered)) == c
    ensures b.publishFailures + 1 >= s.threshold ==>
              T.OpenSince(T.TickEffect(s, b, BusyTick(start, Delivered)), start)
              && T.TickEffect(s, b, BusyTick(start, Delivered)).popFailures == 0
  {
    T.RecordFew(s, Record(s, b, Asked(start)), PopSuccess, PublishFailure(start));
  }

  lemma FailedPop(s: Settings, b: Breaker, start: int, t0: int)
    requires Allows(s, b, start) && T.OpenSince(b, t0) && b.popFailures + 1 < s.threshold
    ensures T.OpenSince(T.TickEffect(s, b, BusyTick(start, ReplyLost)), t0)
  {
    T.RecordFew(s, Record(s, b, Asked(start)), PopFailure(start), PopSuccess);
  }

  /** A lost reply breaks the bound on the store: with threshold 2 and cooldown 10, publish
      failures at 0 and 1 open the circuit; the pop at 11 loses its reply and its pair, which
      is one pop failure and does not reopen it; and the tick at 12 takes another pair. */
  lemma LostReplyBreaksBound()
    ensures exists s, envs ::
              var out := Takers(s, envs, 0);
              && ValidSettings(s) && T.InOrder(TicksOf(s, envs)) && T.PublisherDown(TicksOf(s, envs), 0)
              && |out| == s.threshold + 2
              && out[s.threshold + 1].start < out[s.threshold - 1].start + 2 * s.cooldown
  {
    hide Takers, TicksOf, Serve, T.TickEffect, Busy;
    var s := Settings(2, 10);
    var e1 := [] + [Busy(0, Delivered)];
    var e2 := e1 + [Busy(1, Delivered)];
    var e3 := e2 + [Busy(11, ReplyLost)];
    var e4 := e3 + [Busy(12, Delivered)];
    ServeNothing(s);
    Snoc(s, [], 0, Delivered);
    FailedPublish(s, CLOSED, 0);
    Snoc(s, e1, 1, Delivered);
    FailedPublish(s, Serve(s, e1).breaker, 1);
    Snoc(s, e2, 11, ReplyLost);
    FailedPop(s, Serve(s, e2).breaker, 11, 1);
    Snoc(s, e3, 12, Delivered);
    var ticks := [BusyTick(0, Delivered), BusyTick(1, Delivered), BusyTick(11, ReplyLost), BusyTick(12, Delivered)];
    assert TicksOf(s, e4) == ticks && Takers(s, e4, 0) == ticks;
  }

  lemma ServeNothing(s: Settings)
    ensures Serve(s, []).breaker == CLOSED && TicksOf(s, []) == [] && Takers(s, [], 0) == []
  {
  }
}
