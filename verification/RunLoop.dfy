/** The matcher's run loop as a step relation over its goroutines: the loop itself, one
    goroutine per tick, and the waiter that closes the drain channel.  Any interleaving
    of their steps with ticker notifications and cancellation is a run. */
module RunLoop {

  /** A tick goroutine: running the tick, about to send its completion, about to leave
      the wait group, or gone. */
  datatype Phase = InTick | Sending | Sent | Finished

  /** The loop selects, or waits for the drain, or has returned (drained or timed out). */
  datatype Main = Looping | Draining | Returned(drained: bool)

  /** When a tick began or ended. */
  datatype Mark = Began(tick: nat, at: int) | Ended(tick: nat, at: int)

  datatype Loop = Loop(
    main: Main, tickRunning: bool, tickDone: nat, tasks: seq<Phase>, waitGroup: nat,
    doneClosed: bool, cancelled: bool, notified: bool, now: int, marks: seq<Mark>)

  const INITIAL := Loop(Looping, false, 0, [], 0, false, false, false, 0, [])

  /** The capacity of the completion channel. */
  const CAPACITY: nat := 1

  datatype Move =
    | Pass(d: nat)        // time goes on
    | Notify              // the ticker fires; a second notification is dropped
    | Cancel              // the context is cancelled
    | TakeNotification    // select: the ticker, read only while no tick runs
    | TakeCompletion      // select: tickDone
    | TakeCancellation    // select: ctx.Done
    | EndTick(task: nat)
    | Send(task: nat)
    | Leave(task: nat)    // wg.Done
    | CloseDone           // the waiter saw the wait group reach zero
    | SeeDone             // drain select: complete
    | TimeOut             // drain select: timeout

  predicate Enabled(l: Loop, m: Move) {
    match m
    case Pass(_) => true
    case Notify => true
    case Cancel => true
    case TakeNotification => l.main.Looping? && !l.tickRunning && l.notified
    case TakeCompletion => l.main.Looping? && l.tickDone > 0
    case TakeCancellation => l.main.Looping? && l.cancelled
    case EndTick(i) => i < |l.tasks| && l.tasks[i].InTick?
    case Send(i) => i < |l.tasks| && l.tasks[i].Sending? && l.tickDone < CAPACITY
    case Leave(i) => i < |l.tasks| && l.tasks[i].Sent?
    case CloseDone => !l.main.Looping? && !l.doneClosed && l.waitGroup == 0
    case SeeDone => l.main.Draining? && l.doneClosed
    case TimeOut => l.main.Draining?
  }

  function Do(l: Loop, m: Move): Loop
    requires Enabled(l, m)
  {
    match m
    case Pass(d) => l.(now := l.now + d)
    case Notify => l.(notified := true)
    case Cancel => l.(cancelled := true)
    case TakeNotification =>
      l.(notified := false, tickRunning := true, waitGroup := l.waitGroup + 1,
         tasks := l.tasks + [InTick], marks := l.marks + [Began(|l.tasks|, l.now)])
    case TakeCompletion => l.(tickRunning := false, tickDone := l.tickDone - 1)
    case TakeCancellation => l.(main := Draining)
    case EndTick(i) => l.(tasks := l.tasks[i := Sending], marks := l.marks + [Ended(i, l.now)])
    case Send(i) => l.(tasks := l.tasks[i := Sent], tickDone := l.tickDone + 1)
    case Leave(i) => l.(tasks := l.tasks[i := Finished], waitGroup := if l.waitGroup == 0 then 0 else l.waitGroup - 1)
    case CloseDone => l.(doneClosed := true)
    case SeeDone => l.(main := Returned(true))
    case TimeOut => l.(main := Returned(false))
  }

  /** A sequence of moves, each enabled when it is made. */
  predicate Feasible(moves: seq<Move>)
    decreases |moves|, 0
  {
    moves == [] ||
    var n := |moves| - 1;
    Feasible(moves[..n]) && Enabled(After(moves[..n]), moves[n])
  }

  function After(moves: seq<Move>): Loop
    requires Feasible(moves)
    decreases |moves|, 1
  {
    if moves == [] then INITIAL
    else
      var n := |moves| - 1;
      Do(After(moves[..n]), moves[n])
  }

  // ---------------------------------------------------------------- counts

  /** The tick is executing or its completion is not sent yet. */
  predicate Working(p: Phase) { p.InTick? || p.Sending? }

  function CountWorking(tasks: seq<Phase>): nat {
    if tasks == [] then 0
    else CountWorking(tasks[..|tasks| - 1]) + if Working(tasks[|tasks| - 1]) then 1 else 0
  }

  function CountUnfinished(tasks: seq<Phase>): nat {
    if tasks == [] then 0
    else CountUnfinished(tasks[..|tasks| - 1]) + if tasks[|tasks| - 1].Finished? then 0 else 1
  }

  lemma CountSnoc(tasks: seq<Phase>, p: Phase)
    ensures CountWorking(tasks + [p]) == CountWorking(tasks) + if Working(p) then 1 else 0
    ensures CountUnfinished(tasks + [p]) == CountUnfinished(tasks) + if p.Finished? then 0 else 1
  {
    assert (tasks + [p])[..|tasks|] == tasks;
  }

  lemma {:induction false} CountUpdate(tasks: seq<Phase>, i: nat, p: Phase)
    requires i < |tasks|
    ensures CountWorking(tasks[i := p]) + (if Working(tasks[i]) then 1 else 0)
         == CountWorking(tasks) + (if Working(p) then 1 else 0)
    ensures CountUnfinished(tasks[i := p]) + (if tasks[i].Finished? then 0 else 1)
         == CountUnfinished(tasks) + (if p.Finished? then 0 else 1)
    decreases |tasks|
  {
    var n := |tasks| - 1;
    if i == n {
      assert tasks[i := p][..n] == tasks[..n];
    } else {
      CountUpdate(tasks[..n], i, p);
      assert tasks[i := p][..n] == tasks[..n][i := p];
    }
  }

  lemma {:induction false} CountPositive(tasks: seq<Phase>, i: nat)
    requires i < |tasks|
    ensures Working(tasks[i]) ==> CountWorking(tasks) >= 1
    ensures !tasks[i].Finished? ==> CountUnfinished(tasks) >= 1
    decreases |tasks|
  {
    if i < |tasks| - 1 {
      CountPositive(tasks[..|tasks| - 1], i);
    }
  }

  lemma {:induction false} CountWitness(tasks: seq<Phase>)
    ensures CountWorking(tasks) > 0 ==> exists i :: 0 <= i < |tasks| && Working(tasks[i])
    ensures CountUnfinished(tasks) > 0 ==> exists i :: 0 <= i < |tasks| && !tasks[i].Finished?
    decreases |tasks|
  {
    if tasks != [] {
      CountWitness(tasks[..|tasks| - 1]);
      assert tasks[|tasks| - 1] == tasks[|tasks| - 1];
    }
  }

  // ------------------------------------------------------------- invariant

  /** Ticks begin and end in turn: 0 begins, 0 ends, 1 begins, 1 ends, ... */
  predicate InTurn(marks: seq<Mark>) {
    forall k :: 0 <= k < |marks| ==> (marks[k].Began? <==> k % 2 == 0) && marks[k].tick == k / 2
  }

  predicate Chronological(marks: seq<Mark>, now: int) {
    && (forall k :: 0 <= k < |marks| ==> marks[k].at <= now)
    && (forall j, k :: 0 <= j < k < |marks| ==> marks[j].at <= marks[k].at)
  }

  ghost predicate Sound(l: Loop) {
    && CountWorking(l.tasks) + l.tickDone == (if l.tickRunning then 1 else 0)
    && l.waitGroup == CountUnfinished(l.tasks)
    && (forall i :: 0 <= i < |l.tasks| - 1 ==> !Working(l.tasks[i]))
    && InTurn(l.marks) && Chronological(l.marks, l.now)
    && |l.marks| == 2 * |l.tasks| - (if l.tasks != [] && l.tasks[|l.tasks| - 1].InTick? then 1 else 0)
    && (l.doneClosed ==> !l.main.Looping? && l.waitGroup == 0)
    && (l.main == Returned(true) ==> l.doneClosed)
  }

  lemma InTurnSnoc(marks: seq<Mark>, m: Mark, k: nat)
    requires InTurn(marks)
    requires m.tick == k && |marks| == if m.Began? then 2 * k else 2 * k + 1
    ensures InTurn(marks + [m])
  {
  }

  lemma BeginStep(l: Loop)
    requires Sound(l) && Enabled(l, TakeNotification)
    ensures Sound(Do(l, TakeNotification))
  {
    hide InTurn, CountWorking, CountUnfinished;
    CountSnoc(l.tasks, InTick);
    if l.tasks != [] {
      CountPositive(l.tasks, |l.tasks| - 1);
    }
    InTurnSnoc(l.marks, Began(|l.tasks|, l.now), |l.tasks|);
  }

  lemma EndStep(l: Loop, i: nat)
    requires Sound(l) && Enabled(l, EndTick(i))
    ensures Sound(Do(l, EndTick(i)))
  {
    hide InTurn, CountWorking, CountUnfinished;
    CountUpdate(l.tasks, i, Sending);
    assert i == |l.tasks| - 1;
    InTurnSnoc(l.marks, Ended(i, l.now), i);
  }

  lemma SendStep(l: Loop, i: nat)
    requires Sound(l) && Enabled(l, Send(i))
    ensures Sound(Do(l, Send(i)))
  {
    hide InTurn, CountWorking, CountUnfinished;
    CountUpdate(l.tasks, i, Sent);
    assert i == |l.tasks| - 1;
  }

  lemma LeaveStep(l: Loop, i: nat)
    requires Sound(l) && Enabled(l, Leave(i))
    ensures Sound(Do(l, Leave(i)))
  {
    hide InTurn, CountWorking, CountUnfinished;
    CountUpdate(l.tasks, i, Finished);
    CountPositive(l.tasks, i);
  }

  lemma SoundStep(l: Loop, m: Move)
    requires Sound(l) && Enabled(l, m)
    ensures Sound(Do(l, m))
  {
    match m
    case TakeNotification => BeginStep(l);
    case EndTick(i) => EndStep(l, i);
    case Send(i) => SendStep(l, i);
    case Leave(i) => LeaveStep(l, i);
    case _ => hide InTurn, CountWorking, CountUnfinished;
  }

  lemma {:induction false} SoundRun(moves: seq<Move>)
    requires Feasible(moves)
    ensures Sound(After(moves))
    decreases |moves|
  {
    if moves != [] {
      hide Sound, Do;
      SoundRun(moves[..|moves| - 1]);
      SoundStep(After(moves[..|moves| - 1]), moves[|moves| - 1]);
    } else {
      assert InTurn([]);
    }
  }

  /** For every interleaving: ticks at work plus completions waiting is one while the loop
      believes a tick runs and zero otherwise; so at most one tick runs at a time, ticks
      begin and end in turn, and a completion is never sent into a full channel, not even
      after the loop has returned. */
  lemma OneTickAtATime(moves: seq<Move>)
    requires Feasible(moves)
    ensures var l := After(moves);
            && CountWorking(l.tasks) + l.tickDone == (if l.tickRunning then 1 else 0)
            && (forall i, j :: 0 <= i < |l.tasks| && 0 <= j < |l.tasks| ==>
                  Working(l.tasks[i]) && Working(l.tasks[j]) ==> i == j)
            && (forall i: nat :: i < |l.tasks| && l.tasks[i].Sending? ==> Enabled(l, Send(i)))
            && InTurn(l.marks)
  {
    hide After, Feasible;
    SoundRun(moves);
    var l := After(moves);
    forall i: nat | i < |l.tasks| && l.tasks[i].Sending? ensures Enabled(l, Send(i)) {
      CountPositive(l.tasks, i);
    }
  }

  /** "Drain complete" means that no tick is executing and every goroutine has left. */
  lemma DrainCompleteMeansIdle(moves: seq<Move>)
    requires Feasible(moves) && After(moves).main == Returned(true)
    ensures forall i :: 0 <= i < |After(moves).tasks| ==> After(moves).tasks[i].Finished?
    ensures CountWorking(After(moves).tasks) == 0
  {
    hide After, Feasible;
    SoundRun(moves);
    var l := After(moves);
    forall i | 0 <= i < |l.tasks| ensures l.tasks[i].Finished? {
      CountPositive(l.tasks, i);
    }
    CountWitness(l.tasks);
  }

  lemma {:induction false} FeasiblePrefix(moves: seq<Move>, i: nat)
    requires Feasible(moves) && i <= |moves|
    ensures Feasible(moves[..i])
    decreases |moves|
  {
    if i == |moves| {
      assert moves[..i] == moves;
    } else {
      FeasiblePrefix(moves[..|moves| - 1], i);
      assert moves[..|moves| - 1][..i] == moves[..i];
    }
  }

  lemma ShutdownStays(l: Loop, m: Move)
    requires Enabled(l, m) && !l.main.Looping?
    ensures !Do(l, m).main.Looping? && |Do(l, m).tasks| == |l.tasks|
  {
  }

  /** Once shutdown is chosen no further tick ever starts. */
  lemma {:induction false} NoTickAfterShutdown(moves: seq<Move>, i: nat)
    requires Feasible(moves) && i <= |moves|
    ensures Feasible(moves[..i])
    ensures !After(moves[..i]).main.Looping? ==>
              !After(moves).main.Looping? && |After(moves).tasks| == |After(moves[..i]).tasks|
    decreases |moves|
  {
    FeasiblePrefix(moves, i);
    if i == |moves| {
      assert moves[..i] == moves;
    } else {
      hide Do, Enabled;
      var before := moves[..|moves| - 1];
      assert before[..i] == moves[..i];
      NoTickAfterShutdown(before, i);
      if !After(before).main.Looping? {
        ShutdownStays(After(before), moves[|moves| - 1]);
      }
    }
  }

  /** The loop is never stuck on a tick that has ended, and a drain can always go on: as
      long as a goroutine is left it can move, and afterwards the drain completes. */
  lemma NeverStuck(moves: seq<Move>)
    requires Feasible(moves)
    ensures var l := After(moves);
            && (l.main.Looping? && l.tickRunning && l.tickDone == 0 ==>
                  exists i: nat :: Enabled(l, EndTick(i)) || Enabled(l, Send(i)))
            && (l.main.Looping? && l.tickRunning && l.tickDone > 0 ==> Enabled(l, TakeCompletion))
            && (l.main.Draining? && l.waitGroup > 0 ==>
                  exists i: nat :: Enabled(l, EndTick(i)) || Enabled(l, Send(i)) || Enabled(l, Leave(i)))
            && (l.main.Draining? && l.waitGroup == 0 ==> Enabled(l, CloseDone) || Enabled(l, SeeDone))
  {
    hide After, Feasible;
    SoundRun(moves);
    OneTickAtATime(moves);
    var l := After(moves);
    CountWitness(l.tasks);
    if l.tickRunning && l.tickDone == 0 {
      var i :| 0 <= i < |l.tasks| && Working(l.tasks[i]);
      assert Enabled(l, EndTick(i)) || Enabled(l, Send(i));
    }
    if l.waitGroup > 0 {
      var i :| 0 <= i < |l.tasks| && !l.tasks[i].Finished?;
      assert Enabled(l, EndTick(i)) || Enabled(l, Send(i)) || Enabled(l, Leave(i));
    }
  }

  // ------------------------------------- the loop, read off its moves

  function Count(moves: seq<Move>, m: Move): nat {
    if moves == [] then 0
    else Count(moves[..|moves| - 1], m) + if moves[|moves| - 1] == m then 1 else 0
  }

  function TimePassed(moves: seq<Move>): nat {
    if moves == [] then 0
    else
      var last := moves[|moves| - 1];
      TimePassed(moves[..|moves| - 1]) + if last.Pass? then last.d else 0
  }

  /** Some notification came after the last one that was taken. */
  predicate Pending(moves: seq<Move>) {
    exists i :: 0 <= i < |moves| && moves[i] == Notify && forall j :: i < j < |moves| ==> moves[j] != TakeNotification
  }

  lemma PendingSnoc(moves: seq<Move>, m: Move)
    ensures Pending(moves + [m]) <==> m == Notify || (Pending(moves) && m != TakeNotification)
  {
    var all := moves + [m];
    if m == Notify {
      assert all[|moves|] == Notify;
    } else if Pending(moves) && m != TakeNotification {
      var i :| 0 <= i < |moves| && moves[i] == Notify && forall j :: i < j < |moves| ==> moves[j] != TakeNotification;
      assert all[i] == Notify;
    }
    if Pending(all) && m != Notify {
      var i :| 0 <= i < |all| && all[i] == Notify && forall j :: i < j < |all| ==> all[j] != TakeNotification;
      assert moves[i] == Notify && all[|moves|] == m;
      assert forall j :: i < j < |moves| ==> moves[j] == all[j];
    }
  }

  /** What the moves say of the loop. */
  ghost predicate Tells(moves: seq<Move>, l: Loop) {
    && (l.notified <==> Pending(moves))
    && (l.cancelled <==> Cancel in moves)
    && (l.main.Looping? <==> TakeCancellation !in moves)
    && (l.main == Returned(true) <==> SeeDone in moves)
    && (l.main == Returned(false) <==> TimeOut in moves)
    && (l.doneClosed <==> CloseDone in moves)
    && |l.tasks| == Count(moves, TakeNotification)
    && Count(moves, TakeNotification) == Count(moves, TakeCompletion) + (if l.tickRunning then 1 else 0)
    && l.now == TimePassed(moves)
    && (l.main.Draining? <==> TakeCancellation in moves && SeeDone !in moves && TimeOut !in moves)
    && TellsPhases(moves, l.tasks)
  }

  /** Ticks have come as far as the moves say, and those not started nowhere. */
  ghost predicate TellsPhases(moves: seq<Move>, tasks: seq<Phase>) {
    && (forall i :: 0 <= i < |tasks| ==> tasks[i] == PhaseOf(moves, i))
    && forall i: nat :: i >= |tasks| ==> PhaseOf(moves, i) == InTick
  }

  /** How far the goroutine of tick i has come. */
  function PhaseOf(moves: seq<Move>, i: nat): Phase {
    if Leave(i) in moves then Finished
    else if Send(i) in moves then Sent
    else if EndTick(i) in moves then Sending
    else InTick
  }

  lemma PhasesStep(moves: seq<Move>, l: Loop, m: Move)
    requires TellsPhases(moves, l.tasks) && Enabled(l, m)
    ensures TellsPhases(moves + [m], Do(l, m).tasks)
  {
    hide PhaseOf;
    forall i: nat ensures PhaseOf(moves + [m], i) == NextPhase(PhaseOf(moves, i), m, i) {
      PhaseSnoc(moves, m, i);
    }
  }

  lemma TellsStep(moves: seq<Move>, l: Loop, m: Move)
    requires Tells(moves, l) && Sound(l) && Enabled(l, m)
    ensures Tells(moves + [m], Do(l, m))
  {
    hide Pending, InTurn, Chronological, CountWorking, CountUnfinished, TellsPhases;
    PendingSnoc(moves, m);
    PhasesStep(moves, l, m);
    assert (moves + [m])[..|moves|] == moves;
  }

  function NextPhase(p: Phase, m: Move, i: nat): Phase {
    if m == Leave(i) then Finished
    else if m == Send(i) && !p.Finished? then Sent
    else if m == EndTick(i) && p.InTick? then Sending
    else p
  }

  lemma PhaseSnoc(moves: seq<Move>, m: Move, i: nat)
    ensures PhaseOf(moves + [m], i) == NextPhase(PhaseOf(moves, i), m, i)
  {
    Added(moves, m, EndTick(i));
    Added(moves, m, Send(i));
    Added(moves, m, Leave(i));
  }

  lemma Added(moves: seq<Move>, m: Move, x: Move)
    ensures x in moves + [m] <==> x in moves || x == m
  {
  }

  /** Over every interleaving, the moves made so far determine the loop: a notification is
      pending, cancellation has come, shutdown was chosen, the drain completed or timed out,
      so many ticks were started and each has come so far, exactly as the moves say. */
  lemma {:induction false} LoopHistory(moves: seq<Move>)
    requires Feasible(moves)
    ensures Tells(moves, After(moves))
    decreases |moves|
  {
    hide *;
    if moves == [] {
      NothingYet();
    } else {
      var before, m := moves[..|moves| - 1], moves[|moves| - 1];
      LastMove(moves);
      LoopHistory(before);
      SoundRun(before);
      TellsStep(before, After(before), m);
      assert before + [m] == moves;
    }
  }

  lemma NothingYet()
    ensures Feasible([]) && Tells([], After([]))
  {
    assert !Pending([]);
  }

  lemma FeasibleSnoc(moves: seq<Move>, m: Move)
    requires Feasible(moves)
    ensures Feasible(moves + [m]) <==> Enabled(After(moves), m)
    ensures Feasible(moves + [m]) ==> After(moves + [m]) == Do(After(moves), m)
  {
    hide Enabled, Do;
    assert (moves + [m])[..|moves|] == moves;
  }

  lemma LastMove(moves: seq<Move>)
    requires Feasible(moves) && moves != []
    ensures var before, m := moves[..|moves| - 1], moves[|moves| - 1];
            Feasible(before) && Enabled(After(before), m) && After(moves) == Do(After(before), m)
  {
    hide Do, Enabled;
  }

  /** Exactly when a tick can start: shutdown was not chosen, every tick started was seen to
      complete, and a notification came after the last one taken.  Starting adds one goroutine
      that is in its tick, and no other. */
  lemma TickStartsExactly(moves: seq<Move>)
    requires Feasible(moves)
    ensures Feasible(moves + [TakeNotification])
       <==> && TakeCancellation !in moves
            && Count(moves, TakeNotification) == Count(moves, TakeCompletion)
            && Pending(moves)
    ensures Feasible(moves + [TakeNotification]) ==>
              After(moves + [TakeNotification]).tasks == After(moves).tasks + [InTick]
  {
    hide Pending, Count, After, Feasible;
    FeasibleSnoc(moves, TakeNotification);
    LoopHistory(moves);
  }

  lemma EnabledAt(moves: seq<Move>, j: nat)
    requires Feasible(moves) && j < |moves|
    ensures Feasible(moves[..j]) && Enabled(After(moves[..j]), moves[j])
  {
    FeasiblePrefix(moves, j + 1);
    assert moves[..j + 1][..j] == moves[..j];
  }

  lemma PendingWhenTaken(moves: seq<Move>, j: nat)
    requires Feasible(moves) && j < |moves| && moves[j] == TakeNotification
    ensures Pending(moves[..j])
  {
    EnabledAt(moves, j);
    LoopHistory(moves[..j]);
    hide Pending, Count, After, Feasible;
  }

  /** One notification starts at most one tick. */
  lemma NotifyBetween(moves: seq<Move>, i: nat, j: nat)
    requires Feasible(moves) && i < j < |moves|
    requires moves[i] == moves[j] == TakeNotification
    ensures exists k :: i < k < j && moves[k] == Notify
  {
    hide After, Feasible, Count;
    PendingWhenTaken(moves, j);
    var k :| 0 <= k < j && moves[..j][k] == Notify && forall m :: k < m < j ==> moves[..j][m] != TakeNotification;
    assert moves[..j][i] == moves[i] && moves[..j][k] == moves[k];
  }

  /** Exactly when the loop can notice a completion and cancellation. */
  lemma SelectsExactly(moves: seq<Move>)
    requires Feasible(moves)
    ensures Feasible(moves + [TakeCancellation]) <==> TakeCancellation !in moves && Cancel in moves
    ensures Feasible(moves + [TakeCompletion])
       <==> && TakeCancellation !in moves
            && Count(moves, TakeNotification) > Count(moves, TakeCompletion)
            && CountWorking(After(moves).tasks) == 0
  {
    hide Pending, Count, CountWorking, CountUnfinished, InTurn, Chronological, After, Feasible;
    FeasibleSnoc(moves, TakeCancellation);
    FeasibleSnoc(moves, TakeCompletion);
    LoopHistory(moves);
    SoundRun(moves);
  }

  /** Exactly when a drain can complete, and when it can time out. */
  lemma DrainsExactly(moves: seq<Move>)
    requires Feasible(moves)
    ensures Feasible(moves + [CloseDone])
       <==> && TakeCancellation in moves && CloseDone !in moves
            && forall i :: 0 <= i < Count(moves, TakeNotification) ==> Leave(i) in moves
    ensures Feasible(moves + [SeeDone])
       <==> CloseDone in moves && TakeCancellation in moves && SeeDone !in moves && TimeOut !in moves
    ensures Feasible(moves + [TimeOut]) <==> TakeCancellation in moves && SeeDone !in moves && TimeOut !in moves
  {
    hide Pending, Count, CountWorking, CountUnfinished, InTurn, Chronological, After, Feasible;
    FeasibleSnoc(moves, CloseDone);
    FeasibleSnoc(moves, SeeDone);
    FeasibleSnoc(moves, TimeOut);
    LoopHistory(moves);
    SoundRun(moves);
    var l := After(moves);
    CountWitness(l.tasks);
    forall i | 0 <= i < |l.tasks| ensures CountUnfinished(l.tasks) == 0 ==> l.tasks[i].Finished? {
      CountPositive(l.tasks, i);
    }
    assert forall i :: 0 <= i < |l.tasks| ==> (l.tasks[i].Finished? <==> Leave(i) in moves);
  }

  /** Exactly when the goroutine of tick i can move: end its tick once it began, send once it
      ended, whatever else happened, and leave once it sent. */
  lemma TaskMovesExactly(moves: seq<Move>, i: nat)
    requires Feasible(moves)
    ensures Feasible(moves + [EndTick(i)]) <==> i < Count(moves, TakeNotification) && PhaseOf(moves, i) == InTick
    ensures Feasible(moves + [Send(i)]) <==> i < Count(moves, TakeNotification) && PhaseOf(moves, i) == Sending
    ensures Feasible(moves + [Leave(i)]) <==> i < Count(moves, TakeNotification) && PhaseOf(moves, i) == Sent
  {
    hide Pending, Count, CountWorking, CountUnfinished, InTurn, Chronological, After, Feasible, PhaseOf;
    FeasibleSnoc(moves, EndTick(i));
    FeasibleSnoc(moves, Send(i));
    FeasibleSnoc(moves, Leave(i));
    LoopHistory(moves);
    OneTickAtATime(moves);
  }

  // --------------------------------------------------- the loop can go on

  /** A move of a tick's own goroutine. */
  predicate OfTask(m: Move) { m.EndTick? || m.Send? || m.Leave? }

  function Weight(p: Phase): nat {
    match p case InTick => 3 case Sending => 2 case Sent => 1 case Finished => 0
  }

  function WeightAll(tasks: seq<Phase>): nat {
    if tasks == [] then 0 else WeightAll(tasks[..|tasks| - 1]) + Weight(tasks[|tasks| - 1])
  }

  lemma {:induction false} WeightUpdate(tasks: seq<Phase>, i: nat, p: Phase)
    requires i < |tasks|
    ensures WeightAll(tasks[i := p]) + Weight(tasks[i]) == WeightAll(tasks) + Weight(p)
    decreases |tasks|
  {
    var n := |tasks| - 1;
    if i == n {
      assert tasks[i := p][..n] == tasks[..n];
    } else {
      WeightUpdate(tasks[..n], i, p);
      assert tasks[i := p][..n] == tasks[..n][i := p];
    }
  }

  lemma TaskMoves(l: Loop, m: Move)
    requires Enabled(l, m) && OfTask(m)
    ensures WeightAll(Do(l, m).tasks) < WeightAll(l.tasks) && Do(l, m).main == l.main
    ensures Do(l, m).notified == l.notified
  {
    match m
    case EndTick(i) => WeightUpdate(l.tasks, i, Sending);
    case Send(i) => WeightUpdate(l.tasks, i, Sent);
    case Leave(i) => WeightUpdate(l.tasks, i, Finished);
  }

  /** The tick goroutines can always run to their end by themselves, unless two completions
      would have to wait, which never happens. */
  lemma {:induction false} TasksFinish(moves: seq<Move>) returns (all: seq<Move>)
    requires Feasible(moves)
    ensures Feasible(all) && moves <= all && (forall k :: |moves| <= k < |all| ==> OfTask(all[k]))
    ensures forall i :: 0 <= i < |After(all).tasks| ==> After(all).tasks[i].Finished?
    ensures After(all).main == After(moves).main
    decreases WeightAll(After(moves).tasks)
  {
    var l := After(moves);
    all := moves;
    if i :| 0 <= i < |l.tasks| && !l.tasks[i].Finished? {
      OneTickAtATime(moves);
      hide After, Feasible, Do, WeightAll, InTurn;
      var m := if l.tasks[i].InTick? then EndTick(i) else if l.tasks[i].Sending? then Send(i) else Leave(i);
      FeasibleSnoc(moves, m);
      TaskMoves(l, m);
      all := TasksFinish(moves + [m]);
      assert all[..|moves|] == (moves + [m])[..|moves|] == moves;
    }
  }

  /** Whenever shutdown was chosen, the ticks can finish and the drain can complete without
      timing out, unless the loop has returned. */
  lemma DrainCanComplete(moves: seq<Move>) returns (all: seq<Move>)
    requires Feasible(moves) && After(moves).main.Draining?
    ensures Feasible(all) && moves <= all && After(all).main == Returned(true)
  {
    all := TasksFinish(moves);
    SoundRun(all);
    CountWitness(After(all).tasks);
    hide After, Feasible;
    if !After(all).doneClosed {
      FeasibleSnoc(all, CloseDone);
      all := all + [CloseDone];
    }
    FeasibleSnoc(all, SeeDone);
    all := all + [SeeDone];
  }

  /** An idle loop starts a tick at the next notification. */
  lemma IdleStarts(moves: seq<Move>) returns (all: seq<Move>)
    requires Feasible(moves) && After(moves).main.Looping? && !After(moves).tickRunning
    ensures all == moves + [Notify] + [TakeNotification] && Feasible(all)
    ensures After(all).tasks == After(moves).tasks + [InTick]
  {
    hide After, Feasible;
    FeasibleSnoc(moves, Notify);
    FeasibleSnoc(moves + [Notify], TakeNotification);
    all := moves + [Notify] + [TakeNotification];
  }

  /** The running tick, if any, can finish and be seen to complete without another start. */
  lemma BecomesIdle(moves: seq<Move>) returns (all: seq<Move>)
    requires Feasible(moves) && After(moves).main.Looping?
    ensures Feasible(all) && moves <= all
    ensures After(all).main.Looping? && !After(all).tickRunning && |After(all).tasks| == |After(moves).tasks|
  {
    all := TasksFinish(moves);
    SoundRun(all);
    CountWitness(After(all).tasks);
    LoopHistory(moves);
    LoopHistory(all);
    TasksStartNothing(moves, all);
    hide After, Feasible, CountWorking, CountUnfinished, Count, Pending, InTurn, Chronological;
    if After(all).tickRunning {
      FeasibleSnoc(all, TakeCompletion);
      all := all + [TakeCompletion];
    }
  }

  /** As long as the loop selects, the running tick can finish and be seen to complete, and
      with the next notification another tick starts. */
  lemma TickCanStart(moves: seq<Move>) returns (all: seq<Move>)
    requires Feasible(moves) && After(moves).main.Looping?
    ensures Feasible(all) && moves <= all
    ensures |After(all).tasks| == |After(moves).tasks| + 1 && After(all).tasks[|After(moves).tasks|].InTick?
  {
    hide After, Feasible;
    var idle := BecomesIdle(moves);
    all := IdleStarts(idle);
    assert all[..|idle|] == idle && idle[..|moves|] == moves;
  }

  lemma {:induction false} TasksStartNothing(moves: seq<Move>, all: seq<Move>)
    requires moves <= all && forall k :: |moves| <= k < |all| ==> OfTask(all[k])
    ensures Count(all, TakeNotification) == Count(moves, TakeNotification)
    decreases |all|
  {
    if |all| == |moves| {
      assert all == moves;
    } else {
      TasksStartNothing(moves, all[..|all| - 1]);
    }
  }
}
