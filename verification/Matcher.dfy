/** The matcher: one tick is allow, pop, publish and, on failure, write-back with
    bounded retries. */
module Matcher {
  import opened Bytes
  import opened Member
  import opened SortedSet
  import opened Waiting
  import opened WriteBack
  import opened Circuit
  import opened Ticks
  import opened Retry
  import opened R = RedisQueue
  import P = Protocol

  datatype MatchedPlayer = MatchedPlayer(playerID: Text, deckID: Int64, name: Text, level: Int64)

  const PAIR_SIZE: nat := 2

  function PlayersOf(pair: seq<QueueEntry>): (ps: seq<MatchedPlayer>)
    ensures |ps| == |pair|
    ensures forall i :: 0 <= i < |pair| ==>
              ps[i] == MatchedPlayer(pair[i].playerID, pair[i].deckID, pair[i].name, pair[i].level)
  {
    if pair == [] then []
    else [MatchedPlayer(pair[0].playerID, pair[0].deckID, pair[0].name, pair[0].level)] + PlayersOf(pair[1..])
  }

  // --------------------------------------------------------------- options

  datatype Options = Options(interval: int, circuitThreshold: int, circuitCooldown: int, drainTimeout: int)

  datatype BadOption = Interval | CircuitThreshold | CircuitCooldown | DrainTimeout

  /** The first option that is not positive. */
  function Validate(o: Options): (r: Option<BadOption>)
    ensures r == None <==>
              o.interval > 0 && ValidSettings(Settings(o.circuitThreshold, o.circuitCooldown)) && o.drainTimeout > 0
  {
    if o.interval <= 0 then Some(Interval)
    else if o.circuitThreshold <= 0 then Some(CircuitThreshold)
    else if o.circuitCooldown <= 0 then Some(CircuitCooldown)
    else if o.drainTimeout <= 0 then Some(DrainTimeout)
    else None
  }

  // --------------------------------------------------------------- retries

  /** What attempt k meets: what others do before its call, the network, and when the
      context is cancelled. */
  datatype Weather = Weather(others: seq<P.Outside>, net: Net, stop: Stop)

  /** What the call on a context of its own meets. */
  datatype Resort = Resort(others: seq<P.Outside>, net: Net)

  /** The answer of a Reenqueue call on a store, and the store after it. */
  function ReplyTo(s: Store, p: Popped, net: Net): Reply {
    if FirstInvalid(p.entries).Some? || !net.Delivered? then Failed
    else if HeldText(s.instance) == p.gateway then Written
    else Stale
  }

  function Called(s: Store, p: Popped, net: Net): Store {
    if FirstInvalid(p.entries).Some? || net.NotSent? then s
    else ReenqueueScript(s, p.gateway, TriplesOf(p.entries))
  }

  /** The report of a write-back and the store at its end. */
  datatype Ending = Ending(report: Report, store: Store)

  function Prepend(calls: seq<Call>, e: Ending): Ending {
    Ending(Report(calls + e.report.calls, e.report.verdict), e.store)
  }

  /** The retries from attempt k on, with whatever others do to the store in between. */
  function RetryOn(k: nat, backoff: nat, waited: nat, s: Store, p: Popped, env: nat -> Weather, last: Resort): Ending
    requires 1 <= k <= MAX_ATTEMPTS
    decreases MAX_ATTEMPTS - k
  {
    var met := P.DisturbAll(s, env(k).others);
    var reply, after := ReplyTo(met, p, env(k).net), Called(met, p, env(k).net);
    var call := Call(false, waited, reply);
    if reply != Failed then Ending(Report([call], Judge(reply, LostAfterAttempts)), after)
    else if Noticed(k, env(k).stop) then Prepend([call], ResortOn(waited, after, p, last))
    else if k == MAX_ATTEMPTS then Ending(Report([call], LostAfterAttempts), after)
    else Prepend([call], RetryOn(k + 1, NextBackoff(backoff), waited + backoff, after, p, env, last))
  }

  /** The call of last resort. */
  function ResortOn(waited: nat, s: Store, p: Popped, last: Resort): Ending {
    var met := P.DisturbAll(s, last.others);
    var reply := ReplyTo(met, p, last.net);
    Ending(Report([Call(true, waited, reply)], Judge(reply, LostInShutdown)), Called(met, p, last.net))
  }

  /** A whole write-back. */
  function WriteBackOn(s: Store, p: Popped, env: nat -> Weather, last: Resort): Ending {
    RetryOn(1, INITIAL_BACKOFF, 0, s, p, env, last)
  }

  lemma WriteBackStart(s: Store, p: Popped, env: nat -> Weather, last: Resort)
    ensures MAX_ATTEMPTS >= 1
        && Prepend([], RetryOn(1, INITIAL_BACKOFF, 0, s, p, env, last)) == WriteBackOn(s, p, env, last)
  {
    hide RetryOn;
  }

  lemma PrependPrepend(a: seq<Call>, b: seq<Call>, e: Ending)
    ensures Prepend(a, Prepend(b, e)) == Prepend(a + b, e)
    ensures Prepend([], e) == e
  {
    assert a + (b + e.report.calls) == a + b + e.report.calls;
  }

  /** One turn of the retry loop. */
  lemma RetryTurn(calls: seq<Call>, k: nat, backoff: nat, waited: nat, s: Store, p: Popped,
                  env: nat -> Weather, last: Resort)
    requires 1 <= k <= MAX_ATTEMPTS
    ensures var met := P.DisturbAll(s, env(k).others);
            var reply, after := ReplyTo(met, p, env(k).net), Called(met, p, env(k).net);
            var more := calls + [Call(false, waited, reply)];
            Prepend(calls, RetryOn(k, backoff, waited, s, p, env, last))
            == if reply != Failed then Ending(Report(more, Judge(reply, LostAfterAttempts)), after)
               else if Noticed(k, env(k).stop) then Prepend(more, ResortOn(waited, after, p, last))
               else if k == MAX_ATTEMPTS then Ending(Report(more, Judge(reply, LostAfterAttempts)), after)
               else Prepend(more, RetryOn(k + 1, NextBackoff(backoff), waited + backoff, after, p, env, last))
  {
    hide P.DisturbAll, ReplyTo, Called, NextBackoff, ResortOn, Noticed;
    var met := P.DisturbAll(s, env(k).others);
    var reply, after := ReplyTo(met, p, env(k).net), Called(met, p, env(k).net);
    PrependPrepend(calls, [Call(false, waited, reply)], ResortOn(waited, after, p, last));
    if k < MAX_ATTEMPTS {
      PrependPrepend(calls, [Call(false, waited, reply)],
                     RetryOn(k + 1, NextBackoff(backoff), waited + backoff, after, p, env, last));
    }
  }

  // ------------------------------------------- a write-back keeps the schedule

  /** The store that attempt k starts from, if it is made. */
  function StoreAt(k: nat, s: Store, p: Popped, env: nat -> Weather): Store {
    if k <= 1 then s
    else Called(P.DisturbAll(StoreAt(k - 1, s, p, env), env(k - 1).others), p, env(k - 1).net)
  }

  function AttemptsOn(s: Store, p: Popped, env: nat -> Weather): nat -> Attempt {
    (k: nat) => Attempt(ReplyTo(P.DisturbAll(StoreAt(k, s, p, env), env(k).others), p, env(k).net),
                        env(k).stop)
  }

  function ResortsOn(s: Store, p: Popped, env: nat -> Weather, last: Resort): nat -> Reply {
    (k: nat) => ReplyTo(P.DisturbAll(StoreAt(k + 1, s, p, env), last.others), p, last.net)
  }

  lemma {:induction false} OnScheduleFrom(k: nat, backoff: nat, waited: nat, s: Store, p: Popped,
                                          env: nat -> Weather, last: Resort)
    requires 1 <= k <= MAX_ATTEMPTS
    ensures RetryOn(k, backoff, waited, StoreAt(k, s, p, env), p, env, last).report
         == RetryFrom(k, backoff, waited, AttemptsOn(s, p, env), ResortsOn(s, p, env, last))
    decreases MAX_ATTEMPTS - k
  {
    hide ReplyTo, Called, P.DisturbAll, StoreAt, NextBackoff;
    var here := StoreAt(k, s, p, env);
    var a := AttemptsOn(s, p, env)(k);
    var call := Call(false, waited, a.reply);
    StoreNext(k, s, p, env);
    if a.reply.Failed? && !Noticed(k, env(k).stop) && k < MAX_ATTEMPTS {
      OnScheduleFrom(k + 1, NextBackoff(backoff), waited + backoff, s, p, env, last);
    } else {
      var final := Call(true, waited, ResortsOn(s, p, env, last)(k));
      assert [call] + [final] == [call, final];
    }
  }

  lemma StoreNext(k: nat, s: Store, p: Popped, env: nat -> Weather)
    requires k >= 1
    ensures StoreAt(k + 1, s, p, env) == Called(P.DisturbAll(StoreAt(k, s, p, env), env(k).others), p, env(k).net)
  {
  }

  /** Whatever others do meanwhile, a write-back reports what the schedule reports for the
      answers it got; so the bounds on calls and waits and the verdicts hold of it. */
  lemma WriteBackOnSchedule(s: Store, p: Popped, env: nat -> Weather, last: Resort)
    ensures WriteBackOn(s, p, env, last).report == Retry.Retry(AttemptsOn(s, p, env), ResortsOn(s, p, env, last))
  {
    hide RetryOn, RetryFrom;
    OnScheduleFrom(1, INITIAL_BACKOFF, 0, s, p, env, last);
  }

  lemma FailsUnlessDelivered(s: Store, p: Popped, env: nat -> Weather)
    requires FirstInvalid(p.entries).None?
    ensures forall k: nat :: AttemptsOn(s, p, env)(k).stop == env(k).stop
    ensures forall k: nat :: AttemptsOn(s, p, env)(k).reply.Failed? <==> !env(k).net.Delivered?
  {
  }

  /** Whatever others do meanwhile, a pair whose players may be stored is lost for good exactly
      when five calls brought no reply and cancellation showed neither after one of them nor
      in one of the four waits. */
  lemma WriteBackLostExactly(s: Store, p: Popped, env: nat -> Weather, last: Resort)
    requires FirstInvalid(p.entries).None?
    ensures WriteBackOn(s, p, env, last).report.verdict.LostAfterAttempts?
       <==> && (forall j :: 1 <= j <= 5 ==> !env(j).net.Delivered? && !env(j).stop.afterFailure)
            && (forall j :: 1 <= j < 5 ==> !env(j).stop.inWait)
  {
    hide WriteBackOn, AttemptsOn, ResortsOn, FirstInvalid, Retry.Retry;
    WriteBackOnSchedule(s, p, env, last);
    FailsUnlessDelivered(s, p, env);
    LostExactly(AttemptsOn(s, p, env), ResortsOn(s, p, env, last));
  }

  /** If the calls before the k-th brought no reply without cancellation, and the k-th of at
      most five does, then it is the last one; the pair is written back if the store then
      holds the identifier of the pop, and dropped if not. */
  lemma WriteBackAnswered(s: Store, p: Popped, env: nat -> Weather, last: Resort, k: nat)
    requires FirstInvalid(p.entries).None? && 1 <= k <= 5 && env(k).net.Delivered?
    requires forall j :: 1 <= j < k ==>
               !env(j).net.Delivered? && !env(j).stop.afterFailure && !env(j).stop.inWait
    ensures var r := WriteBackOn(s, p, env, last).report;
            var met := P.DisturbAll(StoreAt(k, s, p, env), env(k).others);
            && |r.calls| == k
            && r.verdict == if HeldText(met.instance) == p.gateway then WrittenBack else DroppedStale
  {
    hide WriteBackOn, ResortsOn, FirstInvalid, Retry.Retry, P.DisturbAll, StoreAt;
    WriteBackOnSchedule(s, p, env, last);
    FailsUnlessDelivered(s, p, env);
    AnsweredStops(AttemptsOn(s, p, env), ResortsOn(s, p, env, last), k);
  }

  // --------------------------------------------- what a write-back leaves

  /** What others did until the last call was made. */
  function Meanwhile(k: nat, s: Store, p: Popped, env: nat -> Weather, last: Resort): seq<P.Outside>
    requires 1 <= k <= MAX_ATTEMPTS
    decreases MAX_ATTEMPTS - k
  {
    var met := P.DisturbAll(s, env(k).others);
    env(k).others
    + if ReplyTo(met, p, env(k).net) != Failed then []
      else if Noticed(k, env(k).stop) then last.others
      else if k == MAX_ATTEMPTS then []
      else Meanwhile(k + 1, Called(met, p, env(k).net), p, env, last)
  }

  lemma {:induction false} DisturbMore(s: Store, a: seq<P.Outside>, b: seq<P.Outside>)
    ensures P.DisturbAll(s, a + b) == P.DisturbAll(P.DisturbAll(s, a), b)
    decreases |a|
  {
    hide P.Disturb;
    if a == [] {
      assert a + b == b;
    } else {
      assert (a + b)[1..] == a[1..] + b;
      DisturbMore(P.Disturb(s, a[0]), a[1..], b);
    }
  }

  predicate CleanNet(net: Net) { !net.ReplyLost? }

  /** With clean failures, whatever others do meanwhile: if the verdict is "written back"
      the store is what they left with the pair put back last, and otherwise it is just
      what they left. */
  lemma {:induction false} CleanEnding(k: nat, backoff: nat, waited: nat, s: Store, p: Popped,
                                       env: nat -> Weather, last: Resort)
    requires 1 <= k <= MAX_ATTEMPTS
    requires CleanNet(last.net) && forall i: nat :: CleanNet(env(i).net)
    ensures var e := RetryOn(k, backoff, waited, s, p, env, last);
            var left := P.DisturbAll(s, Meanwhile(k, s, p, env, last));
            e.store == if e.report.verdict.WrittenBack?
                then ReenqueueScript(left, p.gateway, TriplesOf(p.entries)) else left
    decreases MAX_ATTEMPTS - k
  {
    hide P.DisturbAll, PutAll, TriplesOf, FirstInvalid;
    var met := P.DisturbAll(s, env(k).others);
    assert CleanNet(env(k).net);
    assert env(k).others + [] == env(k).others;
    DisturbMore(s, env(k).others, last.others);
    if ReplyTo(met, p, env(k).net) == Failed && !Noticed(k, env(k).stop) && k < MAX_ATTEMPTS {
      var after := Called(met, p, env(k).net);
      CleanEnding(k + 1, NextBackoff(backoff), waited + backoff, after, p, env, last);
      DisturbMore(s, env(k).others, Meanwhile(k + 1, after, p, env, last));
    }
  }

  /** Whichever failed calls took effect and whatever others do meanwhile, after "written
      back" each player of the pair has exactly the popped entry at its original score. */
  lemma {:induction false} WrittenBackEnding(k: nat, backoff: nat, waited: nat, s: Store, x: QueueEntry, y: QueueEntry,
                                             gateway: Text, env: nat -> Weather, last: Resort)
    requires 1 <= k <= MAX_ATTEMPTS && x.playerID != y.playerID
    ensures var e := RetryOn(k, backoff, waited, s, Popped([x, y], gateway), env, last);
            e.report.verdict.WrittenBack? ==> HasExactly(e.store.queue, x) && HasExactly(e.store.queue, y)
    decreases MAX_ATTEMPTS - k
  {
    hide P.DisturbAll, ReenqueueScript, TriplesOf, HasExactly;
    var p := Popped([x, y], gateway);
    var met := P.DisturbAll(s, env(k).others);
    var after := Called(met, p, env(k).net);
    WrittenRestores(met, x, y, gateway, env(k).net);
    WrittenRestores(P.DisturbAll(after, last.others), x, y, gateway, last.net);
    if ReplyTo(met, p, env(k).net) == Failed && !Noticed(k, env(k).stop) && k < MAX_ATTEMPTS {
      WrittenBackEnding(k + 1, NextBackoff(backoff), waited + backoff, after, x, y, gateway, env, last);
    }
  }

  lemma WrittenRestores(s: Store, x: QueueEntry, y: QueueEntry, gateway: Text, net: Net)
    requires x.playerID != y.playerID
    ensures ReplyTo(s, Popped([x, y], gateway), net).Written? ==>
              var after := Called(s, Popped([x, y], gateway), net).queue;
              HasExactly(after, x) && HasExactly(after, y)
  {
    hide ReenqueueScript, TriplesOf, HasExactly;
    if ReplyTo(s, Popped([x, y], gateway), net).Written? {
      assert [x, y][0] == x && [x, y][1] == y;
      TrueMeansRestored(s, gateway, x, y);
    }
  }

  /** The two stores hold the same identifier and the same entries of everyone else. */
  ghost predicate SameForOthers(s: Store, t: Store, players: set<Text>) {
    s.instance == t.instance && AgreeOutside(s.queue, t.queue, players)
  }

  lemma SameDisturbed(s: Store, t: Store, players: set<Text>, e: P.Outside)
    requires SameForOthers(s, t, players)
    ensures SameForOthers(P.Disturb(s, e), P.Disturb(t, e), players)
  {
    hide FirstField, MemberOf;
  }

  lemma {:induction false} SameDisturbedAll(s: Store, t: Store, players: set<Text>, others: seq<P.Outside>)
    requires SameForOthers(s, t, players)
    ensures SameForOthers(P.DisturbAll(s, others), P.DisturbAll(t, others), players)
    decreases |others|
  {
    hide SameForOthers, P.Disturb;
    if others != [] {
      SameDisturbed(s, t, players, others[0]);
      SameDisturbedAll(P.Disturb(s, others[0]), P.Disturb(t, others[0]), players, others[1..]);
    }
  }

  lemma SameCalled(s: Store, t: Store, p: Popped, net: Net)
    requires SameForOthers(s, t, Players(TriplesOf(p.entries)))
    ensures SameForOthers(Called(s, p, net), t, Players(TriplesOf(p.entries)))
  {
    hide FirstField, TriplesOf, PutAll;
    if FirstInvalid(p.entries).None? {
      TriplesLabelled(p.entries);
      PutAllOthers(s.queue, TriplesOf(p.entries));
    }
  }

  /** With any failures and any interference, a write-back leaves the identifier and the
      entries of all other players as others made them. */
  lemma {:induction false} OthersEnding(k: nat, backoff: nat, waited: nat, s: Store, t: Store, p: Popped,
                                        env: nat -> Weather, last: Resort)
    requires 1 <= k <= MAX_ATTEMPTS && SameForOthers(s, t, Players(TriplesOf(p.entries)))
    ensures SameForOthers(RetryOn(k, backoff, waited, s, p, env, last).store,
                          P.DisturbAll(t, Meanwhile(k, s, p, env, last)), Players(TriplesOf(p.entries)))
    decreases MAX_ATTEMPTS - k
  {
    hide P.DisturbAll, ReplyTo, Called, SameForOthers, TriplesOf, Players;
    var players := Players(TriplesOf(p.entries));
    var met, metToo := P.DisturbAll(s, env(k).others), P.DisturbAll(t, env(k).others);
    var after := Called(met, p, env(k).net);
    SameDisturbedAll(s, t, players, env(k).others);
    SameCalled(met, metToo, p, env(k).net);
    assert env(k).others + [] == env(k).others;
    if ReplyTo(met, p, env(k).net) == Failed {
      if Noticed(k, env(k).stop) {
        DisturbMore(t, env(k).others, last.others);
        SameDisturbedAll(after, metToo, players, last.others);
        SameCalled(P.DisturbAll(after, last.others), P.DisturbAll(metToo, last.others), p, last.net);
      } else if k < MAX_ATTEMPTS {
        OthersEnding(k + 1, NextBackoff(backoff), waited + backoff, after, metToo, p, env, last);
        DisturbMore(t, env(k).others, Meanwhile(k + 1, after, p, env, last));
      }
    }
  }

  // ------------------------------------------------ when nobody interferes

  ghost predicate Undisturbed(env: nat -> Weather, last: Resort) {
    last.others == [] && forall k: nat :: env(k).others == []
  }

  /** Some call made from attempt k on reaches the store. */
  predicate ReachesFrom(k: nat, env: nat -> Weather, last: Resort)
    requires 1 <= k <= MAX_ATTEMPTS
    decreases MAX_ATTEMPTS - k
  {
    || !env(k).net.NotSent?
    || (if Noticed(k, env(k).stop) then !last.net.NotSent?
        else k < MAX_ATTEMPTS && ReachesFrom(k + 1, env, last))
  }

  lemma CalledTwice(s: Store, p: Popped, a: Net, b: Net)
    requires FirstInvalid(p.entries).None? && !a.NotSent?
    ensures Called(Called(s, p, a), p, b) == Called(s, p, a)
    ensures Called(s, p, a) == ReenqueueScript(s, p.gateway, TriplesOf(p.entries))
  {
    hide ReenqueueScript, TriplesOf, FirstInvalid;
    ReenqueueIdempotent(s, p.gateway, p.entries);
  }

  lemma {:induction false} OnceWritten(k: nat, backoff: nat, waited: nat, s: Store, p: Popped,
                                       env: nat -> Weather, last: Resort)
    requires 1 <= k <= MAX_ATTEMPTS && Undisturbed(env, last)
    requires forall net :: Called(s, p, net) == s
    ensures RetryOn(k, backoff, waited, s, p, env, last).store == s
    decreases MAX_ATTEMPTS - k
  {
    hide Called, ReplyTo;
    assert P.DisturbAll(s, []) == s;
    if !Noticed(k, env(k).stop) && k < MAX_ATTEMPTS {
      OnceWritten(k + 1, NextBackoff(backoff), waited + backoff, s, p, env, last);
    }
  }

  /** Without interference a write-back of which some call reaches the store leaves what a
      single one does, whatever was lost on the way; otherwise it leaves the store alone. */
  lemma {:induction false} UndisturbedEnding(k: nat, backoff: nat, waited: nat, s: Store, p: Popped,
                                             env: nat -> Weather, last: Resort)
    requires 1 <= k <= MAX_ATTEMPTS && Undisturbed(env, last) && FirstInvalid(p.entries).None?
    ensures RetryOn(k, backoff, waited, s, p, env, last).store
         == if ReachesFrom(k, env, last) then ReenqueueScript(s, p.gateway, TriplesOf(p.entries)) else s
    decreases MAX_ATTEMPTS - k
  {
    hide ReenqueueScript, TriplesOf, FirstInvalid;
    assert P.DisturbAll(s, []) == s;
    if env(k).net.NotSent? {
      if Noticed(k, env(k).stop) {
        hide P.DisturbAll;
      } else if k < MAX_ATTEMPTS {
        UndisturbedEnding(k + 1, NextBackoff(backoff), waited + backoff, s, p, env, last);
      }
    } else {
      var after := Called(s, p, env(k).net);
      forall net ensures Called(after, p, net) == after {
        CalledTwice(s, p, env(k).net, net);
      }
      assert P.DisturbAll(after, []) == after;
      CalledTwice(s, p, env(k).net, env(k).net);
      if !Noticed(k, env(k).stop) && k < MAX_ATTEMPTS {
        OnceWritten(k + 1, NextBackoff(backoff), waited + backoff, after, p, env, last);
      }
    }
  }

  // ------------------------------------------------------------------ ticks

  datatype TickEnv = TickEnv(
    start: int, before: seq<P.Outside>, popNet: Net, popFailedAt: int,
    builds: bool, publishes: bool, publishFailedAt: int,
    weather: nat -> Weather, last: Resort)

  /** The store that the tick's pop meets. */
  function Met(s: Store, env: TickEnv): Store { P.DisturbAll(s, env.before) }

  /** How the tick's pop and publish turn out on the store that the pop meets. */
  ghost function PopKindOn(met: Store, env: TickEnv): PopKind {
    if !env.popNet.Delivered? || PopResult(met).Err? then PopFailed(env.popFailedAt)
    else
      var entries := PopResult(met).value.entries;
      if entries == [] then Empty
      else if |entries| != PAIR_SIZE then OddSize
      else if env.builds && env.publishes then Pair(Published)
      else Pair(PublishFailed(env.publishFailedAt))
  }

  ghost function TickOn(s: Store, env: TickEnv): Tick { Tick(env.start, PopKindOn(Met(s, env), env)) }

  ghost function PoppedStore(met: Store, env: TickEnv): Store {
    if env.popNet.NotSent? then met else PopScript(met).after
  }

  /** The write-back of an allowed tick, if its publish failed. */
  ghost function TickEnding(met: Store, env: TickEnv): Option<Ending> {
    match PopKindOn(met, env)
    case Pair(PublishFailed(_)) =>
      Some(WriteBackOn(PoppedStore(met, env), PopResult(met).value, env.weather, env.last))
    case _ => None
  }

  ghost function StoreAfter(met: Store, env: TickEnv): Store {
    match TickEnding(met, env)
    case Some(e) => e.store
    case None => PoppedStore(met, env)
  }

  /** The store after an allowed tick. */
  ghost function TickStore(s: Store, env: TickEnv): Store { StoreAfter(Met(s, env), env) }

  /** The match an allowed tick publishes, if any. */
  ghost function TickMatch(s: Store, env: TickEnv): seq<seq<MatchedPlayer>> {
    if PopKindOn(Met(s, env), env) == Pair(Published) then [PlayersOf(PopResult(Met(s, env)).value.entries)] else []
  }

  ghost function LostBy(met: Store, env: TickEnv): nat {
    var e := TickEnding(met, env);
    if e.Some? && IsLoss(e.value.report.verdict) then 1 else 0
  }

  ghost function DroppedBy(met: Store, env: TickEnv): nat {
    var e := TickEnding(met, env);
    if e.Some? && e.value.report.verdict.DroppedStale? then 1 else 0
  }

  // ------------------------------------------- a tick on the waiting players

  /** The match names this player, with the slot they waited with. */
  predicate Names(m: MatchedPlayer, p: PlayerID, s: Slot) {
    m.playerID == p && m.deckID == s.deckID && m.level == s.level && m.name == s.name
  }

  lemma TwoNamed(a: PlayerID, x: Slot, b: PlayerID, y: Slot)
    ensures var m := PlayersOf([EntryOf(a, x), EntryOf(b, y)]);
            |m| == 2 && Names(m[0], a, x) && Names(m[1], b, y)
  {
  }

  /** On every queue the scripts can build: an unanswered pop is a pop failure, fewer than two
      players are an empty pop, and two or more are a pair, published or failed. */
  lemma TickKind(w: Waiting, instance: Option<Text>, env: TickEnv)
    ensures PopKindOn(Store(Concrete(w), instance), env)
         == if !env.popNet.Delivered? then PopFailed(env.popFailedAt)
            else if |w| < 2 then Empty
            else if env.builds && env.publishes then Pair(Published)
            else Pair(PublishFailed(env.publishFailedAt))
  {
    hide Concrete, PopResult, PopScript, MemberOf, FirstField, Front, Second, EntryOf;
    PopNeverFails(w, instance);
  }

  /** What a tick should publish when these players wait: one match of the two front ones in
      order, if it is told of them and publishing works, and otherwise nothing. */
  ghost predicate RightMatches(ms: seq<seq<MatchedPlayer>>, w: Waiting, env: TickEnv) {
    if |w| >= 2 && env.popNet.Delivered? && env.builds && env.publishes
    then |ms| == 1 && |ms[0]| == 2 && Names(ms[0][0], Front(w), w[Front(w)]) && Names(ms[0][1], Second(w), w[Second(w)])
    else ms == []
  }

  /** On every queue the scripts can build, a tick publishes nothing, or exactly one match of
      the two front players, first come first, each with their own deck, name and level. */
  lemma TickPublishes(w: Waiting, s: Store, env: TickEnv)
    requires Met(s, env).queue == Concrete(w)
    ensures RightMatches(TickMatch(s, env), w, env)
  {
    hide Concrete, PopResult, PopScript, MemberOf, FirstField, Front, Second, EntryOf, PopKindOn, PlayersOf,
         P.DisturbAll, Names;
    var instance := Met(s, env).instance;
    assert Met(s, env) == Store(Concrete(w), instance);
    TickKind(w, instance, env);
    PopNeverFails(w, instance);
    if |w| >= 2 {
      TwoNamed(Front(w), w[Front(w)], Second(w), w[Second(w)]);
    }
  }

  class Matcher {
    const queue: RedisQueue
    const circuit: CircuitBreaker
    var published: seq<seq<MatchedPlayer>>
    var droppedPairs: nat
    var lostPairs: nat
    var skipLogs: nat

    constructor (queue: RedisQueue, circuit: CircuitBreaker)
      ensures this.queue == queue && this.circuit == circuit
      ensures published == [] && droppedPairs == 0 && lostPairs == 0 && skipLogs == 0
    {
      this.queue := queue;
      this.circuit := circuit;
      published := [];
      droppedPairs := 0;
      lostPairs := 0;
      skipLogs := 0;
    }

    /** Others go first: request handlers and Redis's own evictions. */
    method LetOthersAct(others: seq<P.Outside>)
      modifies queue
      ensures queue.State() == P.DisturbAll(old(queue.State()), others)
    {
      hide EnqueueScript, CancelScript;
      var i := 0;
      assert others[0..] == others;
      while i < |others|
        invariant 0 <= i <= |others|
        invariant P.DisturbAll(queue.State(), others[i..]) == P.DisturbAll(old(queue.State()), others)
      {
        assert others[i..][1..] == others[i + 1..];
        match others[i] {
          case Enqueue(player, slot, gateway) =>
            var _ := queue.Enqueue(player, slot.deckID, slot.name, slot.level, gateway, slot.joinedAt, Delivered);
          case Cancel(player) =>
            var _ := queue.Cancel(player, Delivered);
          case EvictQueue => queue.queue := map[];
          case EvictInstance => queue.instance := None;
        }
        i := i + 1;
      }
    }

    method Note(verdict: Verdict)
      modifies this`droppedPairs, this`lostPairs
      ensures lostPairs == old(lostPairs) + (if IsLoss(verdict) then 1 else 0)
      ensures droppedPairs == old(droppedPairs) + (if verdict.DroppedStale? then 1 else 0)
    {
      if IsLoss(verdict) {
        lostPairs := lostPairs + 1;
      } else if verdict.DroppedStale? {
        droppedPairs := droppedPairs + 1;
      }
    }

    method TryReenqueue(p: Popped, others: seq<P.Outside>, net: Net) returns (reply: Reply)
      modifies queue
      ensures var met := P.DisturbAll(old(queue.State()), others);
              reply == ReplyTo(met, p, net) && queue.State() == Called(met, p, net)
    {
      hide P.DisturbAll, ReenqueueScript, TriplesOf, FirstInvalid;
      LetOthersAct(others);
      var r := queue.Reenqueue(p.entries, p.gateway, net);
      reply := match r { case Ok(true) => Written case Ok(false) => Stale case Err(_) => Failed };
    }

    /** Write back with retries, and record a dropped or a lost pair. */
    method ReenqueueWithRetry(p: Popped, env: nat -> Weather, last: Resort) returns (report: Report)
      modifies queue, this`droppedPairs, this`lostPairs
      ensures Ending(report, queue.State()) == WriteBackOn(old(queue.State()), p, env, last)
      ensures lostPairs == old(lostPairs) + (if IsLoss(report.verdict) then 1 else 0)
      ensures droppedPairs == old(droppedPairs) + (if report.verdict.DroppedStale? then 1 else 0)
    {
      hide WriteBackOn;
      report := RunRetries(p, env, last);
      Note(report.verdict);
    }

    /** The retry loop: turns until one of them settles the pair, each wait twice as long
        as the one before. */
    method RunRetries(p: Popped, env: nat -> Weather, last: Resort) returns (report: Report)
      modifies queue
      ensures Ending(report, queue.State()) == WriteBackOn(old(queue.State()), p, env, last)
    {
      hide *;
      WriteBackStart(queue.State(), p, env, last);
      ghost var all := WriteBackOn(queue.State(), p, env, last);
      var calls: seq<Call> := [];
      var backoff: nat, waited: nat := INITIAL_BACKOFF, 0;
      var attempt: nat := 1;
      while true
        invariant 1 <= attempt <= MAX_ATTEMPTS
        invariant Prepend(calls, RetryOn(attempt, backoff, waited, queue.State(), p, env, last)) == all
        decreases MAX_ATTEMPTS - attempt
      {
        var settled;
        settled, report, calls := RetryOnce(attempt, backoff, waited, calls, p, env, last);
        if settled {
          return;
        }
        waited := waited + backoff;
        backoff := NextBackoff(backoff);
        attempt := attempt + 1;
      }
    }

    /** One attempt: a call, then, after a failure, the last attempt if cancellation is
        noticed, the end after the fifth failure, or another turn. */
    method RetryOnce(attempt: nat, backoff: nat, waited: nat, calls: seq<Call>,
                     p: Popped, env: nat -> Weather, last: Resort)
      returns (settled: bool, report: Report, more: seq<Call>)
      requires 1 <= attempt <= MAX_ATTEMPTS
      modifies queue
      ensures var all := Prepend(calls, RetryOn(attempt, backoff, waited, old(queue.State()), p, env, last));
              if settled then Ending(report, queue.State()) == all
              else
                && attempt < MAX_ATTEMPTS
                && all == Prepend(more, RetryOn(attempt + 1, NextBackoff(backoff), waited + backoff,
                                                queue.State(), p, env, last))
    {
      RetryTurn(calls, attempt, backoff, waited, queue.State(), p, env, last);
      hide RetryOn, Prepend, ReplyTo, Called, P.DisturbAll, ResortOn, NextBackoff;
      var reply := TryReenqueue(p, env(attempt).others, env(attempt).net);
      more := calls + [Call(false, waited, reply)];
      settled, report := true, Report(more, Judge(reply, LostAfterAttempts));
      if reply != Failed {
        return;
      }
      if env(attempt).stop.afterFailure {
        report := BestEffortReenqueue(p, last, waited, more);
        return;
      }
      if attempt == MAX_ATTEMPTS {
        return;
      }
      if env(attempt).stop.inWait {
        report := BestEffortReenqueue(p, last, waited, more);
        return;
      }
      settled := false;
    }

    /** The last attempt in shutdown, on a context of its own. */
    method BestEffortReenqueue(p: Popped, last: Resort, waited: nat, calls: seq<Call>) returns (report: Report)
      modifies queue
      ensures Ending(report, queue.State()) == Prepend(calls, ResortOn(waited, old(queue.State()), p, last))
    {
      hide P.DisturbAll, ReplyTo, Called;
      var reply := TryReenqueue(p, last.others, last.net);
      report := Report(calls + [Call(true, waited, reply)], Judge(reply, LostInShutdown));
    }

    /** One tick. */
    method RunTick(env: TickEnv)
      modifies this, queue, circuit
      ensures circuit.State() == TickEffect(circuit.Config(), old(circuit.State()), TickOn(old(queue.State()), env))
      ensures !Allows(circuit.Config(), old(circuit.State()), env.start) ==>
                && queue.State() == old(queue.State()) && published == old(published)
                && lostPairs == old(lostPairs) && droppedPairs == old(droppedPairs)
      ensures Allows(circuit.Config(), old(circuit.State()), env.start) ==>
                && queue.State() == TickStore(old(queue.State()), env)
                && published == old(published) + TickMatch(old(queue.State()), env)
      ensures Allows(circuit.Config(), old(circuit.State()), env.start) ==>
                && lostPairs == old(lostPairs) + LostBy(Met(old(queue.State()), env), env)
                && droppedPairs == old(droppedPairs) + DroppedBy(Met(old(queue.State()), env), env)
      ensures Allows(circuit.Config(), old(circuit.State()), env.start) ==>
                forall w: Waiting :: Met(old(queue.State()), env).queue == Concrete(w) ==>
                  exists ms :: published == old(published) + ms && RightMatches(ms, w, env)
      ensures skipLogs == old(skipLogs) + (if LogsSkip(circuit.Config(), old(circuit.State()), env.start) then 1 else 0)
    {
      hide PopResult, PopScript, WriteBackOn, Record, RecordAll, P.DisturbAll, RightMatches, Concrete;
      ghost var c, s := circuit.Config(), queue.State();
      forall w: Waiting | Met(s, env).queue == Concrete(w) ensures RightMatches(TickMatch(s, env), w, env) {
        TickPublishes(w, s, env);
      }
      var isAllowed, shouldLogSkip := circuit.AllowTick(env.start);
      if !isAllowed {
        if shouldLogSkip {
          skipLogs := skipLogs + 1;
        }
        return;
      }
      ghost var asked := circuit.State();
      LetOthersAct(env.before);
      ghost var kind := PopKindOn(queue.State(), env);
      var r := queue.PopPair(env.popNet);
      if r.Err? {
        circuit.RecordPopFailure(env.popFailedAt);
        RecordFew(c, asked, PopFailure(env.popFailedAt), PopSuccess);
        return;
      }
      circuit.RecordPopSuccess();
      RecordFew(c, asked, PopSuccess, PublishSuccess);
      RecordFew(c, asked, PopSuccess, PublishFailure(env.publishFailedAt));
      var pair := r.value.entries;
      if |pair| == 0 {
        return;
      }
      if |pair| != PAIR_SIZE {
        return;
      }
      if !env.builds || !env.publishes {
        circuit.RecordPublishFailure(env.publishFailedAt);
        var _ := ReenqueueWithRetry(r.value, env.weather, env.last);
        return;
      }
      circuit.RecordPublishSuccess();
      published := published + [PlayersOf(pair)];
    }
  }

  /** A failed publish costs nobody their place: on every queue the scripts can build, if
      nobody interferes and one of the write-back's calls reaches the store, the tick leaves
      the store exactly as it found it, members, scores and identifier. */
  lemma FailedTickRestores(w: Waiting, instance: Option<Text>, env: TickEnv)
    requires |w| >= 2 && env.popNet.Delivered? && !(env.builds && env.publishes)
    requires env.before == [] && Undisturbed(env.weather, env.last)
    requires ReachesFrom(1, env.weather, env.last)
    ensures TickStore(Store(Concrete(w), instance), env) == Store(Concrete(w), instance)
  {
    hide Concrete, PopScript, PopResult, EntryOf, TriplesOf, RetryOn, ReachesFrom, Undisturbed, TickStore,
         Front, Second, ReenqueueScript, FirstInvalid, Without, HeldText;
    var s := Store(Concrete(w), instance);
    PopNeverFails(w, instance);
    PopWriteBackIdentity(w, instance);
    EntriesOfValid(Front(w), w[Front(w)], Second(w), w[Second(w)]);
    FailedTickStore(s, env);
    UndisturbedEnding(1, INITIAL_BACKOFF, 0, PopScript(s).after, PopResult(s).value, env.weather, env.last);
  }

  lemma EntriesOfValid(a: PlayerID, x: Slot, b: PlayerID, y: Slot)
    ensures FirstInvalid([EntryOf(a, x), EntryOf(b, y)]).None?
  {
  }

  lemma FailedTickStore(s: Store, env: TickEnv)
    requires env.before == [] && env.popNet.Delivered? && !(env.builds && env.publishes)
    requires PopResult(s).Ok? && |PopResult(s).value.entries| == PAIR_SIZE
    ensures TickStore(s, env)
         == RetryOn(1, INITIAL_BACKOFF, 0, PopScript(s).after, PopResult(s).value, env.weather, env.last).store
  {
    hide PopScript, PopResult, RetryOn;
    assert P.DisturbAll(s, []) == s;
  }
}
