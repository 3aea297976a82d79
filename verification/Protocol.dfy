/** The whole service as a transition system over events.  HTTP calls, matcher calls
    and key evictions interleave freely, and any number of popped pairs may be in
    flight.  `World` is the plain view, with a token for every accepted Enqueue and
    the gateway it came from; `Wire` is what really exists: the string sorted set,
    the identifier key and the entries the matcher decoded. */
module Protocol {
  import opened Bytes
  import opened Member
  import opened SortedSet
  import opened Waiting
  import opened RedisQueue

  datatype Event =
    | Enqueue(player: Text, slot: Slot, gateway: Text)
    | Cancel(player: Text)
    | Pop
    | PopUnanswered  // the script ran but the matcher saw an error
    | PublishOk(flight: nat)
    | PublishFail(flight: nat)
    | WriteBack(flight: nat, net: Net)
    | GiveUp(flight: nat)
    | EvictQueue
    | EvictInstance

  /** A slot with its history: the token of its Enqueue and the gateway that sent it. */
  datatype Tagged = Tagged(slot: Slot, token: nat, origin: Text)

  type Line = map<PlayerID, Tagged>

  datatype Seat = Seat(player: PlayerID, rider: Tagged)

  /** A popped pair: the identifier held at the pop, whether publishing has failed,
      and how many Enqueues had been accepted when it was popped. */
  datatype Flight = Flight(first: Seat, second: Seat, gateway: Text, failing: bool, epoch: nat)

  datatype Fate = Cancelled | Replaced | Reset | Evicted | Unanswered | Published | Dropped | Lost

  datatype Closing = Closing(token: nat, fate: Fate, at: nat)

  /** `last` is the gateway of the latest accepted Enqueue; `now` counts events and
      names the flight that an event creates. */
  datatype World = World(
    line: Line, held: Option<Text>, flights: map<nat, Flight>,
    tokens: nat, last: Text, closed: set<Closing>, now: nat)

  const START := World(map[], None, map[], 0, [], {}, 0)

  function Slots(line: Line): Waiting {
    map p | p in line :: line[p].slot
  }

  predicate Accepted(e: Event) {
    e.Enqueue? && ValidPlayerID(e.player) && e.gateway != []
  }

  predicate IsReset(w: World, gateway: Text) { w.held != Some(gateway) }

  /** Players whose waiting entry an accepted Enqueue removes. */
  function Ousted(w: World, player: PlayerID, gateway: Text): set<PlayerID> {
    set p | p in w.line && (IsReset(w, gateway) || p == player)
  }

  function Close(w: World, players: set<PlayerID>, fate: Fate): set<Closing> {
    set p | p in players && p in w.line :: Closing(w.line[p].token, fate, w.now)
  }

  function Admit(w: World, player: PlayerID, slot: Slot, gateway: Text): World {
    var kept: Line := if IsReset(w, gateway) then map[] else w.line;
    w.(line := kept[player := Tagged(slot, w.tokens, gateway)],
       held := Some(gateway),
       tokens := w.tokens + 1,
       last := gateway,
       closed := w.closed + Close(w, Ousted(w, player, gateway),
                                  if IsReset(w, gateway) then Reset else Replaced))
  }

  function Leave(w: World, players: set<PlayerID>, fate: Fate): World {
    w.(line := map p | p in w.line && p !in players :: w.line[p],
       closed := w.closed + Close(w, players, fate))
  }

  ghost function TakePair(w: World): World {
    var waiting := Slots(w.line);
    assert waiting.Keys == w.line.Keys;
    if |waiting| < 2 then w
    else
      var a, b := Front(waiting), Second(waiting);
      w.(line := map p | p in w.line && p != a && p != b :: w.line[p],
         flights := w.flights[w.now := Flight(Seat(a, w.line[a]), Seat(b, w.line[b]),
                                              HeldText(w.held), false, w.tokens)])
  }

  ghost function NextPair(w: World): set<PlayerID>
    requires |Slots(w.line)| >= 2
  {
    {Front(Slots(w.line)), Second(Slots(w.line))}
  }

  function KeyOf(s: Seat): Key { SlotKey(s.player, s.rider.slot) }

  lemma SlotsOfTwo(line: Line, rest: Line, a: Seat, b: Seat)
    requires line == rest[a.player := a.rider][b.player := b.rider]
    ensures var one: Waiting := Slots(rest)[a.player := a.rider.slot];
            Slots(line) == one[b.player := b.rider.slot]
  {
  }

  /** A pop takes the two riders whom everyone else comes after. */
  lemma TakeTwo(w: World, rest: Line, a: Seat, b: Seat)
    requires w.line == rest[a.player := a.rider][b.player := b.rider]
    requires a.player != b.player && a.player !in rest && b.player !in rest
    requires Before(KeyOf(a), KeyOf(b))
    requires forall p :: p in rest ==> Before(KeyOf(b), KeyOf(Seat(p, rest[p])))
    ensures TakePair(w).line == rest
    ensures TakePair(w).flights == w.flights[w.now := Flight(a, b, HeldText(w.held), false, w.tokens)]
    ensures TakePair(w) == w.(line := rest, flights := TakePair(w).flights)
  {
    hide Before, SlotKey, IsFront;
    SlotsOfTwo(w.line, rest, a, b);
    PairInFront(Slots(rest), a.player, b.player, a.rider.slot, b.rider.slot);
  }

  function Tokens(f: Flight): set<nat> { {f.first.rider.token, f.second.rider.token} }

  function End(w: World, id: nat, fate: Fate): World
    requires id in w.flights
  {
    w.(flights := w.flights - {id},
       closed := w.closed + {Closing(w.flights[id].first.rider.token, fate, w.now),
                             Closing(w.flights[id].second.rider.token, fate, w.now)})
  }

  predicate Matches(w: World, f: Flight) { HeldText(w.held) == f.gateway }

  /** Waiting entries that a write-back replaces by a different one. */
  function Displaced(w: World, f: Flight): set<PlayerID> {
    set p | p in {f.first.player, f.second.player} && p in w.line && w.line[p].token !in Tokens(f)
  }

  /** The script's effect of a write-back whose identifier matches. */
  function PutBack(w: World, f: Flight): World {
    w.(line := w.line[f.first.player := f.first.rider][f.second.player := f.second.rider],
       closed := w.closed + Close(w, Displaced(w, f), Replaced))
  }

  function Return(w: World, id: nat, net: Net): World
    requires id in w.flights
  {
    var f := w.flights[id];
    if net.NotSent? then w
    else if !Matches(w, f) then
      if net.Delivered? then End(w, id, Dropped) else w
    else
      var back := PutBack(w, f);
      if net.Delivered? then back.(flights := w.flights - {id}) else back
  }

  ghost function Act(w: World, e: Event): World {
    match e
    case Enqueue(player, slot, gateway) =>
      if Accepted(e) then Admit(w, player, slot, gateway) else w
    case Cancel(player) =>
      if player in w.line then Leave(w, {player}, Cancelled) else w
    case Pop => TakePair(w)
    case PopUnanswered => if |Slots(w.line)| < 2 then w else Leave(w, NextPair(w), Unanswered)
    case PublishOk(id) =>
      if id in w.flights && !w.flights[id].failing then End(w, id, Published) else w
    case PublishFail(id) =>
      if id in w.flights && !w.flights[id].failing
      then w.(flights := w.flights[id := w.flights[id].(failing := true)]) else w
    case WriteBack(id, net) =>
      if id in w.flights && w.flights[id].failing then Return(w, id, net) else w
    case GiveUp(id) =>
      if id in w.flights && w.flights[id].failing then End(w, id, Lost) else w
    case EvictQueue => Leave(w, w.line.Keys, Evicted)
    case EvictInstance => w.(held := None)
  }

  ghost function Step(w: World, e: Event): World {
    var after := Act(w, e);
    after.(now := w.now + 1)
  }

  ghost function RunFrom(w: World, events: seq<Event>): World
    decreases |events|
  {
    if events == [] then w
    else Step(RunFrom(w, events[..|events| - 1]), events[|events| - 1])
  }

  ghost function Run(events: seq<Event>): World { RunFrom(START, events) }

  lemma RunSnoc(events: seq<Event>, e: Event)
    ensures Run(events + [e]) == Step(Run(events), e)
  {
    assert (events + [e])[..|events|] == events;
  }

  lemma RunNext(events: seq<Event>, k: nat)
    requires k < |events|
    ensures Run(events[..k + 1]) == Step(Run(events[..k]), events[k])
  {
    assert events[..k + 1][..k] == events[..k];
  }

  // ------------------------------------------------------------- the wire

  datatype Cargo = Cargo(entries: seq<QueueEntry>, gateway: Text, failing: bool)

  datatype Wire = Wire(store: Store, flights: map<nat, Cargo>, now: nat)

  const WIRE_START := Wire(Store(map[], None), map[], 0)

  ghost function WirePop(c: Wire): Wire {
    var after := c.(store := PopScript(c.store).after);
    match PopResult(c.store)
    case Err(_) => after
    case Ok(popped) =>
      if |popped.entries| == 2
      then after.(flights := c.flights[c.now := Cargo(popped.entries, popped.gateway, false)])
      else after
  }

  function WireReturn(c: Wire, id: nat, net: Net): Wire
    requires id in c.flights
  {
    var cargo := c.flights[id];
    if net.NotSent? || FirstInvalid(cargo.entries).Some? then c
    else
      var after := c.(store := ReenqueueScript(c.store, cargo.gateway, TriplesOf(cargo.entries)));
      if net.Delivered? then after.(flights := c.flights - {id}) else after
  }

  /** What somebody else than the matcher does: a request handler, or Redis itself. */
  type Outside = e: Event | IsOutside(e) witness EvictQueue

  predicate IsOutside(e: Event) { e.Enqueue? || e.Cancel? || e.EvictQueue? || e.EvictInstance? }

  function Disturb(s: Store, e: Outside): Store {
    match e
    case Enqueue(player, slot, gateway) =>
      if Accepted(e)
      then EnqueueScript(s, player, MemberOf(player, slot), slot.joinedAt, gateway).after
      else s
    case Cancel(player) => if player == [] then s else CancelScript(s, player)
    case EvictQueue => s.(queue := map[])
    case EvictInstance => s.(instance := None)
  }

  function DisturbAll(s: Store, others: seq<Outside>): Store
    decreases |others|
  {
    if others == [] then s else DisturbAll(Disturb(s, others[0]), others[1..])
  }

  ghost function WireAct(c: Wire, e: Event): Wire {
    match e
    case Enqueue(_, _, _) => c.(store := Disturb(c.store, e))
    case Cancel(_) => c.(store := Disturb(c.store, e))
    case Pop => WirePop(c)
    case PopUnanswered => c.(store := PopScript(c.store).after)
    case PublishOk(id) =>
      if id in c.flights && !c.flights[id].failing then c.(flights := c.flights - {id}) else c
    case PublishFail(id) =>
      if id in c.flights && !c.flights[id].failing
      then c.(flights := c.flights[id := c.flights[id].(failing := true)]) else c
    case WriteBack(id, net) =>
      if id in c.flights && c.flights[id].failing then WireReturn(c, id, net) else c
    case GiveUp(id) =>
      if id in c.flights && c.flights[id].failing then c.(flights := c.flights - {id}) else c
    case EvictQueue => c.(store := Disturb(c.store, e))
    case EvictInstance => c.(store := Disturb(c.store, e))
  }

  ghost function WireStep(c: Wire, e: Event): Wire {
    WireAct(c, e).(now := c.now + 1)
  }

  ghost function WireRun(events: seq<Event>): Wire
    decreases |events|
  {
    if events == [] then WIRE_START
    else WireStep(WireRun(events[..|events| - 1]), events[|events| - 1])
  }

  function CargoOf(f: Flight): Cargo {
    Cargo([EntryOf(f.first.player, f.first.rider.slot), EntryOf(f.second.player, f.second.rider.slot)],
          f.gateway, f.failing)
  }

  /** The wire state that stands for a plain state. */
  ghost function WireOf(w: World): Wire {
    Wire(Store(Concrete(Slots(w.line)), w.held), map id | id in w.flights :: CargoOf(w.flights[id]), w.now)
  }

  // ---------------------------------------------------------- simulation

  lemma SlotsOfAdmit(w: World, player: PlayerID, slot: Slot, gateway: Text)
    ensures var kept := if IsReset(w, gateway) then map[] else Slots(w.line);
            Slots(Admit(w, player, slot, gateway).line) == kept[player := slot]
    ensures Admit(w, player, slot, gateway).held == Some(gateway)
  {
    hide Close;
  }

  lemma SimulateEnqueue(w: World, player: PlayerID, slot: Slot, gateway: Text)
    ensures EnqueueScript(WireOf(w).store, player, MemberOf(player, slot), slot.joinedAt, gateway).after
         == WireOf(Admit(w, player, slot, gateway)).store
  {
    assert Concrete(map[]) == map[];
    hide Concrete, MemberOf, FirstField, Put, Slots, Admit;
    SlotsOfAdmit(w, player, slot, gateway);
    ConcretePut(if IsReset(w, gateway) then map[] else Slots(w.line), player, slot);
  }

  lemma SlotsOfCancel(w: World, player: Text)
    ensures Slots(Act(w, Cancel(player)).line) == Without(Slots(w.line), player)
  {
    hide Close;
  }

  lemma SimulateCancel(w: World, player: Text)
    ensures CancelScript(WireOf(w).store, player) == WireOf(Act(w, Cancel(player))).store
  {
    hide Concrete, RemovePlayer, Slots, Without;
    ConcreteRemove(Slots(w.line), player);
    SlotsOfCancel(w, player);
  }

  lemma SlotsOfPop(w: World)
    requires |Slots(w.line)| >= 2
    ensures var v := Slots(w.line);
            Slots(TakePair(w).line) == Without(Without(v, Front(v)), Second(v))
  {
    hide IsFront;
  }

  lemma CargoOfNew(w: World, line: Line, f: Flight)
    ensures WireOf(w.(line := line, flights := w.flights[w.now := f])).flights
         == WireOf(w).flights[w.now := CargoOf(f)]
  {
    hide Concrete, Slots, CargoOf;
  }

  lemma CargoOfPop(w: World)
    requires |Slots(w.line)| >= 2
    ensures var v := Slots(w.line);
            var a, b := Front(v), Second(v);
            && WireOf(TakePair(w)).flights
               == WireOf(w).flights[w.now := Cargo([EntryOf(a, v[a]), EntryOf(b, v[b])], HeldText(w.held), false)]
            && TakePair(w).held == w.held && TakePair(w).now == w.now
  {
    hide IsFront, Concrete, EntryOf, WireOf;
    var v := Slots(w.line);
    var a, b := Front(v), Second(v);
    CargoOfNew(w, TakePair(w).line, Flight(Seat(a, w.line[a]), Seat(b, w.line[b]), HeldText(w.held), false, w.tokens));
  }

  lemma SimulatePop(w: World)
    ensures WirePop(WireOf(w)) == WireOf(TakePair(w))
  {
    hide Concrete, PopScript, PopResult, Without, EntryOf;
    var waiting := Slots(w.line);
    PopNeverFails(waiting, w.held);
    if |waiting| >= 2 {
      SlotsOfPop(w);
      CargoOfPop(w);
      hide TakePair, Slots, Front, Second, CargoOf;
    }
  }

  lemma SlotsOfPutBack(w: World, f: Flight)
    ensures Slots(PutBack(w, f).line)
         == Slots(w.line)[f.first.player := f.first.rider.slot][f.second.player := f.second.rider.slot]
    ensures PutBack(w, f).held == w.held
  {
    hide Close;
  }

  lemma SlotsOfLost(w: World)
    requires |Slots(w.line)| >= 2
    ensures var v, after := Slots(w.line), Leave(w, NextPair(w), Unanswered);
            && Slots(after.line) == Without(Without(v, Front(v)), Second(v))
            && after.held == w.held && after.flights == w.flights && after.now == w.now
  {
    hide IsFront, Close;
  }

  lemma SimulateUnanswered(w: World)
    ensures WireAct(WireOf(w), PopUnanswered) == WireOf(Act(w, PopUnanswered))
  {
    hide Concrete, PopScript, PopResult, Without, Slots, Front, Second, NextPair, Leave, CargoOf, EntryOf;
    PopNeverFails(Slots(w.line), w.held);
    if |Slots(w.line)| >= 2 {
      SlotsOfLost(w);
    }
  }

  lemma SimulatePutBack(w: World, f: Flight)
    requires Matches(w, f)
    ensures ReenqueueScript(WireOf(w).store, f.gateway, TriplesOf(CargoOf(f).entries)) == WireOf(PutBack(w, f)).store
  {
    hide Concrete, PutAll, TriplesOf, MemberOf, FirstField, EntryOf, Slots, PutBack;
    ConcretePutSlots(Slots(w.line), f.first.player, f.first.rider.slot, f.second.player, f.second.rider.slot);
    SlotsOfPutBack(w, f);
  }

  lemma CargoValid(f: Flight)
    ensures FirstInvalid(CargoOf(f).entries) == None
  {
  }

  lemma SimulateReturn(w: World, id: nat, net: Net)
    requires id in w.flights
    ensures WireReturn(WireOf(w), id, net) == WireOf(Return(w, id, net))
  {
    hide Concrete, TriplesOf, EntryOf, Slots, FirstInvalid, PutAll, Close;
    var f := w.flights[id];
    CargoValid(f);
    if Matches(w, f) {
      SimulatePutBack(w, f);
    }
  }

  lemma SimulateEnd(w: World, id: nat, fate: Fate)
    requires id in w.flights
    ensures WireOf(End(w, id, fate)) == WireOf(w).(flights := WireOf(w).flights - {id})
  {
    hide Concrete, Slots, CargoOf;
  }

  lemma SimulateFailed(w: World, id: nat)
    requires id in w.flights
    ensures WireOf(w.(flights := w.flights[id := w.flights[id].(failing := true)]))
         == WireOf(w).(flights := WireOf(w).flights[id := WireOf(w).flights[id].(failing := true)])
  {
    hide Concrete, Slots;
  }

  lemma SimulateFlight(w: World, e: Event)
    requires e.PublishOk? || e.PublishFail? || e.GiveUp?
    ensures WireAct(WireOf(w), e) == WireOf(Act(w, e))
  {
    hide Concrete, Slots, End;
    if e.flight in w.flights {
      SimulateEnd(w, e.flight, if e.PublishOk? then Published else Lost);
      SimulateFailed(w, e.flight);
    }
  }

  lemma SimulateEvict(w: World)
    ensures WireAct(WireOf(w), EvictQueue) == WireOf(Act(w, EvictQueue))
    ensures WireAct(WireOf(w), EvictInstance) == WireOf(Act(w, EvictInstance))
  {
    hide Concrete;
    assert Slots(Act(w, EvictQueue).line) == map[];
    assert Concrete(map[]) == map[];
  }

  lemma SimulateAct(w: World, e: Event)
    ensures WireAct(WireOf(w), e) == WireOf(Act(w, e))
  {
    hide Concrete, RemovePlayer, EnqueueScript, CancelScript, MemberOf, WirePop, TakePair, WireReturn, Return,
        Slots, Close;
    match e
    case Enqueue(player, slot, gateway) =>
      if Accepted(e) {
        SimulateEnqueue(w, player, slot, gateway);
      }
    case Cancel(player) =>
      SimulateCancel(w, player);
    case Pop => SimulatePop(w);
    case PopUnanswered => SimulateUnanswered(w);
    case WriteBack(id, net) =>
      if id in w.flights && w.flights[id].failing {
        SimulateReturn(w, id, net);
      }
    case EvictQueue => SimulateEvict(w);
    case EvictInstance =>
    case _ => SimulateFlight(w, e);
  }

  /** Each step of the wire is the same step of the plain system. */
  lemma Simulation(w: World, e: Event)
    ensures WireStep(WireOf(w), e) == WireOf(Step(w, e))
  {
    hide WireAct, Act, Concrete, Slots;
    SimulateAct(w, e);
  }

  /** Data refinement over every run: after any events, in any order, the string
      sorted set, the identifier and the decoded pairs are the image of a plain map
      from players to slots with its pairs in flight. */
  lemma {:induction false} Refinement(events: seq<Event>)
    ensures WireRun(events) == WireOf(Run(events))
    decreases |events|
  {
    hide WireStep, Step, WireOf;
    if events == [] {
      StartsAlike();
    } else {
      var n := |events| - 1;
      Refinement(events[..n]);
      Simulation(Run(events[..n]), events[n]);
    }
  }

  lemma StartsAlike()
    ensures WireOf(START) == WIRE_START
  {
    hide Concrete;
    assert Slots(map[]) == map[];
    assert Concrete(map[]) == map[];
  }

  /** On every reachable queue: Size counts distinct players, no player has two
      entries, every member is an encoding, and a pop decodes to none or two
      different players. */
  lemma ReachableQueue(events: seq<Event>)
    ensures var s, w := WireRun(events).store, Run(events);
            && |s.queue| == |w.line|
            && (forall m, n :: m in s.queue && n in s.queue && FirstField(m) == FirstField(n) ==> m == n)
            && (forall m :: m in s.queue ==>
                  && FirstField(m) in w.line
                  && m == MemberOf(FirstField(m), w.line[FirstField(m)].slot)
                  && s.queue[m] == w.line[FirstField(m)].slot.joinedAt)
            && PopResult(s).Ok?
            && (var es := PopResult(s).value.entries;
                es == [] || (|es| == 2 && es[0].playerID != es[1].playerID))
  {
    hide Concrete, MemberOf, FirstField, PopScript, PopResult, WireRun, Run, IsFront;
    Refinement(events);
    var w := Run(events);
    var waiting := Slots(w.line);
    assert waiting.Keys == w.line.Keys;
    ConcreteSize(waiting);
    PopNeverFails(waiting, w.held);
    forall m | m in Concrete(waiting)
      ensures FirstField(m) in waiting && m == MemberOf(FirstField(m), waiting[FirstField(m)])
      ensures Concrete(waiting)[m] == waiting[FirstField(m)].joinedAt
    {
      ConcreteHas(waiting, m);
    }
    forall m, n | m in Concrete(waiting) && n in Concrete(waiting) && FirstField(m) == FirstField(n)
      ensures m == n
    {
      OneEntryPerPlayer(waiting, m, n);
    }
  }
}
