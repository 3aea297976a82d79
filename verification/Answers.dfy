/** What the callers of Enqueue and Cancel are told, and what the history records, against
    what really happened to the waiting players. */
module Answers {
  import opened Bytes
  import opened Member
  import opened SortedSet
  import opened Waiting
  import opened Protocol

  /** Nothing was closed in the future. */
  ghost predicate ClosedPast(w: World) { forall c :: c in w.closed ==> c.at < w.now }

  lemma ClosedPastStep(w: World, e: Event)
    requires ClosedPast(w)
    ensures ClosedPast(Step(w, e))
  {
    hide Front, Second, Slots;
  }

  lemma {:induction false} ClosedPastRun(events: seq<Event>)
    ensures ClosedPast(Run(events))
    decreases |events|
  {
    if events == [] {
      assert Run([]) == START;
    } else {
      hide Step, ClosedPast;
      ClosedPastRun(events[..|events| - 1]);
      ClosedPastStep(Run(events[..|events| - 1]), events[|events| - 1]);
    }
  }

  /** The waiting players whose entry the event closes with this fate. */
  ghost function ClosedBy(w: World, e: Event, fate: Fate): set<PlayerID> {
    set p | p in w.line && Closing(w.line[p].token, fate, w.now) in Step(w, e).closed
  }

  lemma ResetClosings(w: World, player: PlayerID, slot: Slot, gateway: Text)
    requires ClosedPast(w) && gateway != []
    ensures var e := Enqueue(player, slot, gateway);
            && ClosedBy(w, e, Reset) == (if w.held == Some(gateway) then {} else w.line.Keys)
            && (w.held == Some(gateway) ==> forall p :: p in w.line && p != player ==> p in Step(w, e).line)
            && (w.held != Some(gateway) ==> Step(w, e).line.Keys == {player})
  {
    hide Slots, Front, Second;
  }

  lemma StoredSize(w: World)
    ensures |WireOf(w).store.queue| == |w.line|
  {
    hide Concrete;
    assert Slots(w.line).Keys == w.line.Keys;
    ConcreteSize(Slots(w.line));
  }

  /** After any run, the answer of an accepted Enqueue is the number of waiting players whose
      entry that Enqueue closed as reset.  It is above 0 exactly when another identifier, or
      none, was held and somebody waited; then everybody who waited is gone or replaced by the
      arrival, and otherwise everybody else stays. */
  lemma EnqueueAnswer(events: seq<Event>, player: PlayerID, slot: Slot, gateway: Text)
    requires gateway != []
    ensures var w, e := Run(events), Enqueue(player, slot, gateway);
            var store, member := WireRun(events).store, MemberOf(player, slot);
            var answer := EnqueueScript(store, player, member, slot.joinedAt, gateway).removed;
            && answer == |ClosedBy(w, e, Reset)|
            && (answer > 0 <==> w.held != Some(gateway) && w.line != map[])
            && (answer > 0 ==> ClosedBy(w, e, Reset) == w.line.Keys && Run(events + [e]).line.Keys == {player})
            && (answer == 0 ==> forall p :: p in w.line && p != player ==> p in Run(events + [e]).line)
  {
    hide Run, WireRun, Step, ClosedBy, Concrete, MemberOf, Put;
    var w := Run(events);
    Refinement(events);
    ClosedPastRun(events);
    StoredSize(w);
    RunSnoc(events, Enqueue(player, slot, gateway));
    ResetClosings(w, player, slot, gateway);
    HeldIs(w);
    assert w.line == map[] <==> w.line.Keys == {};
  }

  lemma HeldIs(w: World)
    ensures WireOf(w).store.instance == w.held
  {
  }

  /** After any run, Cancel answers yes exactly when the player was waiting, and afterwards
      only that player is gone. */
  lemma CancelAnswer(events: seq<Event>, player: Text)
    ensures var w, store := Run(events), WireRun(events).store;
            && (|CancelScript(store, player).queue| < |store.queue| <==> player in w.line)
            && Run(events + [Cancel(player)]).line.Keys == w.line.Keys - {player}
  {
    hide Run, WireRun, Step, Concrete, RemovePlayer, Act;
    var w := Run(events);
    Refinement(events);
    StoredSize(w);
    SimulateCancel(w, player);
    StoredSize(Act(w, Cancel(player)));
    RunSnoc(events, Cancel(player));
    CancelLine(w, player);
  }

  lemma CancelLine(w: World, player: Text)
    ensures Act(w, Cancel(player)).line.Keys == Step(w, Cancel(player)).line.Keys == w.line.Keys - {player}
    ensures player in w.line ==> |Act(w, Cancel(player)).line| == |w.line| - 1
    ensures player !in w.line ==> Act(w, Cancel(player)).line == w.line
  {
    hide Close;
    if player in w.line {
      assert Act(w, Cancel(player)).line.Keys == w.line.Keys - {player};
    }
  }

  /** What a fate means, step by step: it tells which event closed the token. */
  lemma FatesTell(w: World, e: Event, c: Closing)
    requires c in Step(w, e).closed && c !in w.closed
    ensures c.at == w.now
    ensures match c.fate
            case Cancelled => e.Cancel?
            case Replaced => Accepted(e) || (e.WriteBack? && !e.net.NotSent?)
            case Reset => Accepted(e) && w.held != Some(e.gateway)
            case Evicted => e.EvictQueue?
            case Unanswered => e.PopUnanswered?
            case Published => e.PublishOk?
            case Dropped => e.WriteBack? && e.net.Delivered?
            case Lost => e.GiveUp?
  {
    hide Slots, Front, Second;
  }
}
