/** The retry schedule of a write-back, on values: which calls are made, after what
    waits, and what is recorded in the end. */
module Retry {

  const MAX_ATTEMPTS: nat := 5
  const INITIAL_BACKOFF: nat := 100
  const BACKOFF_FACTOR: nat := 2

  function NextBackoff(backoff: nat): nat { backoff * BACKOFF_FACTOR }

  /** The answer of one Reenqueue call. */
  datatype Reply = Written | Stale | Failed

  /** What attempt k meets. */
  datatype Attempt = Attempt(reply: Reply, stop: Stop)

  /** Whether the context is cancelled when a failure is examined, and during the wait
      that follows. */
  datatype Stop = Stop(afterFailure: bool, inWait: bool)

  /** A call made: on a context of its own or not, and the full waits before it in
      milliseconds. */
  datatype Call = Call(independent: bool, waited: nat, reply: Reply)

  datatype Verdict = WrittenBack | DroppedStale | LostAfterAttempts | LostInShutdown

  datatype Report = Report(calls: seq<Call>, verdict: Verdict)

  predicate IsLoss(v: Verdict) { v.LostAfterAttempts? || v.LostInShutdown? }

  function Judge(r: Reply, loss: Verdict): Verdict {
    match r
    case Written => WrittenBack
    case Stale => DroppedStale
    case Failed => loss
  }

  /** Cancellation is noticed around attempt k. */
  predicate Noticed(k: nat, stop: Stop) {
    stop.afterFailure || (k < MAX_ATTEMPTS && stop.inWait)
  }

  /** The retries from attempt k on; `last(k)` answers the call of last resort after
      attempt k. */
  function RetryFrom(k: nat, backoff: nat, waited: nat, env: nat -> Attempt, last: nat -> Reply): Report
    requires 1 <= k <= MAX_ATTEMPTS
    decreases MAX_ATTEMPTS - k
  {
    var a := env(k);
    var call := Call(false, waited, a.reply);
    if !a.reply.Failed? then Report([call], Judge(a.reply, LostAfterAttempts))
    else if Noticed(k, a.stop) then Report([call, Call(true, waited, last(k))], Judge(last(k), LostInShutdown))
    else if k == MAX_ATTEMPTS then Report([call], LostAfterAttempts)
    else
      var rest := RetryFrom(k + 1, NextBackoff(backoff), waited + backoff, env, last);
      Report([call] + rest.calls, rest.verdict)
  }

  function Retry(env: nat -> Attempt, last: nat -> Reply): Report {
    RetryFrom(1, INITIAL_BACKOFF, 0, env, last)
  }

  function Pow2(n: nat): nat {
    if n == 0 then 1 else 2 * Pow2(n - 1)
  }

  function LastCall(r: Report): Call
    requires r.calls != []
  {
    r.calls[|r.calls| - 1]
  }

  /** At most n calls, all but the last failed, and the verdict is the last answer's. */
  predicate WellFormed(r: Report, n: nat) {
    && 1 <= |r.calls| <= n
    && (forall i :: 0 <= i < |r.calls| - 1 ==> r.calls[i].reply.Failed? && !r.calls[i].independent)
    && r.verdict == Judge(LastCall(r).reply, if LastCall(r).independent then LostInShutdown else LostAfterAttempts)
  }

  lemma WellFormedCons(call: Call, rest: Report, n: nat)
    requires WellFormed(rest, n) && call.reply.Failed? && !call.independent
    ensures WellFormed(Report([call] + rest.calls, rest.verdict), n + 1)
  {
    var r := Report([call] + rest.calls, rest.verdict);
    assert LastCall(r) == LastCall(rest);
    forall i | 0 < i < |r.calls| - 1 ensures r.calls[i].reply.Failed? && !r.calls[i].independent {
      assert r.calls[i] == rest.calls[i - 1];
    }
  }

  /** The shape of a report from attempt k on, whose last call is independent or not. */
  predicate Shaped(r: Report, k: nat, independent: bool, last: nat -> Reply) {
    && k <= MAX_ATTEMPTS
    && WellFormed(r, MAX_ATTEMPTS - k + 2)
    && (LastCall(r).independent <==> independent)
    && (independent ==> k + |r.calls| >= 2 && LastCall(r).reply == last(k + |r.calls| - 2))
  }

  lemma ShapedCons(call: Call, rest: Report, k: nat, independent: bool, last: nat -> Reply)
    requires Shaped(rest, k + 1, independent, last) && call.reply.Failed? && !call.independent
    ensures Shaped(Report([call] + rest.calls, rest.verdict), k, independent, last)
  {
    WellFormedCons(call, rest, MAX_ATTEMPTS - k + 1);
    assert LastCall(Report([call] + rest.calls, rest.verdict)) == LastCall(rest);
  }

  lemma {:induction false} VerdictFrom(k: nat, backoff: nat, waited: nat, env: nat -> Attempt, last: nat -> Reply)
    requires 1 <= k <= MAX_ATTEMPTS
    ensures Shaped(RetryFrom(k, backoff, waited, env, last), k, NoticedFrom(k, env), last)
    decreases MAX_ATTEMPTS - k
  {
    var a := env(k);
    if a.reply.Failed? && !Noticed(k, a.stop) && k < MAX_ATTEMPTS {
      hide Shaped;
      var rest := RetryFrom(k + 1, NextBackoff(backoff), waited + backoff, env, last);
      VerdictFrom(k + 1, NextBackoff(backoff), waited + backoff, env, last);
      ShapedCons(Call(false, waited, a.reply), rest, k, NoticedFrom(k, env), last);
    } else {
      hide WellFormed;
      ShortIsWellFormed(RetryFrom(k, backoff, waited, env, last), MAX_ATTEMPTS - k + 2);
    }
  }

  lemma ShortIsWellFormed(r: Report, n: nat)
    requires n >= 2
    requires || (exists c: Call :: !c.independent && r == Report([c], Judge(c.reply, LostAfterAttempts)))
             || (exists c: Call, d: Call :: !c.independent && c.reply.Failed? && d.independent
                                 && r == Report([c, d], Judge(d.reply, LostInShutdown)))
    ensures WellFormed(r, n)
  {
  }

  /** At most six calls, all but the last failed, and the verdict is a loss exactly when
      every call made failed. */
  lemma LossIffAllFailed(env: nat -> Attempt, last: nat -> Reply)
    ensures var r := Retry(env, last);
            && 1 <= |r.calls| <= 6
            && (IsLoss(r.verdict) <==> forall i :: 0 <= i < |r.calls| ==> r.calls[i].reply.Failed?)
            && (r.verdict.WrittenBack? <==> exists i :: 0 <= i < |r.calls| && r.calls[i].reply.Written?)
            && (r.verdict.DroppedStale? <==> exists i :: 0 <= i < |r.calls| && r.calls[i].reply.Stale?)
  {
    hide RetryFrom;
    VerdictFrom(1, INITIAL_BACKOFF, 0, env, last);
    var r := Retry(env, last);
    assert r.calls[|r.calls| - 1] == LastCall(r);
  }

  /** Cancellation is noticed around some attempt that is made from k on. */
  predicate NoticedFrom(k: nat, env: nat -> Attempt)
    requires 1 <= k <= MAX_ATTEMPTS
    decreases MAX_ATTEMPTS - k
  {
    var a := env(k);
    a.reply.Failed? && (Noticed(k, a.stop) || (k < MAX_ATTEMPTS && NoticedFrom(k + 1, env)))
  }

  /** The pair gets one last attempt on a context of its own exactly when cancellation
      was noticed, and that attempt decides; so no pair is given up in shutdown
      without it. */
  lemma ShutdownGetsOwnAttempt(env: nat -> Attempt, last: nat -> Reply)
    ensures var r := Retry(env, last);
            && (NoticedFrom(1, env) <==> exists i :: 0 <= i < |r.calls| && r.calls[i].independent)
            && (NoticedFrom(1, env) ==> r.calls != [] && r.verdict == Judge(last(|r.calls| - 1), LostInShutdown))
            && (r.verdict.LostInShutdown? ==> NoticedFrom(1, env))
  {
    hide RetryFrom, NoticedFrom;
    VerdictFrom(1, INITIAL_BACKOFF, 0, env, last);
    var r := Retry(env, last);
    assert r.calls[|r.calls| - 1] == LastCall(r);
  }

  /** Each call's waits: the schedule for the retries, nothing more for the last one. */
  predicate OnSchedule(calls: seq<Call>, k: nat) {
    forall i :: 0 <= i < |calls| ==> InTime(calls, k, i)
  }

  predicate InTime(calls: seq<Call>, k: nat, i: nat)
    requires i < |calls|
  {
    if calls[i].independent
    then i > 0 && calls[i].waited == calls[i - 1].waited
    else calls[i].waited == 100 * (Pow2(k + i) - 1)
  }

  lemma OnScheduleCons(call: Call, rest: seq<Call>, k: nat)
    requires OnSchedule(rest, k + 1) && !call.independent && call.waited == 100 * (Pow2(k) - 1)
    ensures OnSchedule([call] + rest, k)
  {
    var calls := [call] + rest;
    forall i | 0 < i < |calls| ensures InTime(calls, k, i) {
      assert InTime(rest, k + 1, i - 1);
      assert calls[i] == rest[i - 1] && (i > 1 ==> calls[i - 1] == rest[i - 2]);
      assert k + 1 + (i - 1) == k + i;
    }
  }

  lemma {:induction false} ScheduleFrom(k: nat, backoff: nat, waited: nat, env: nat -> Attempt, last: nat -> Reply)
    requires 1 <= k <= MAX_ATTEMPTS
    requires backoff == 100 * Pow2(k - 1) && waited == 100 * (Pow2(k - 1) - 1)
    ensures OnSchedule(RetryFrom(k, backoff, waited, env, last).calls, k - 1)
    decreases MAX_ATTEMPTS - k
  {
    var a := env(k);
    if a.reply.Failed? && !Noticed(k, a.stop) && k < MAX_ATTEMPTS {
      hide OnSchedule;
      assert Pow2(k) == 2 * Pow2(k - 1);
      ScheduleFrom(k + 1, NextBackoff(backoff), waited + backoff, env, last);
      OnScheduleCons(Call(false, waited, a.reply),
                     RetryFrom(k + 1, NextBackoff(backoff), waited + backoff, env, last).calls, k - 1);
    }
  }

  lemma WaitBound(n: nat)
    requires n < MAX_ATTEMPTS
    ensures 100 * (Pow2(n) - 1) <= 1500
  {
    assert Pow2(0) == 1 && Pow2(1) == 2 && Pow2(2) == 4 && Pow2(3) == 8 && Pow2(4) == 16;
  }

  lemma {:induction false} RegularCalls(k: nat, backoff: nat, waited: nat, env: nat -> Attempt,
                                        last: nat -> Reply, i: nat)
    requires 1 <= k <= MAX_ATTEMPTS
    requires i < |RetryFrom(k, backoff, waited, env, last).calls|
    requires !RetryFrom(k, backoff, waited, env, last).calls[i].independent
    ensures k + i <= MAX_ATTEMPTS
    decreases MAX_ATTEMPTS - k
  {
    var a := env(k);
    if a.reply.Failed? && !Noticed(k, a.stop) && k < MAX_ATTEMPTS && i > 0 {
      var rest := RetryFrom(k + 1, NextBackoff(backoff), waited + backoff, env, last);
      assert RetryFrom(k, backoff, waited, env, last).calls[i] == rest.calls[i - 1];
      hide RetryFrom;
      RegularCalls(k + 1, NextBackoff(backoff), waited + backoff, env, last, i - 1);
    }
  }

  /** Attempt k (the call at index k - 1) starts after full waits of exactly
      100 * (2^(k-1) - 1) milliseconds, never above 1500; the call on a context of its
      own adds no wait. */
  lemma Schedule(env: nat -> Attempt, last: nat -> Reply, i: nat)
    requires i < |Retry(env, last).calls|
    ensures var c := Retry(env, last).calls[i];
            && c.waited <= 1500
            && (if c.independent
                then i > 0 && c.waited == Retry(env, last).calls[i - 1].waited
                else i < MAX_ATTEMPTS && c.waited == 100 * (Pow2(i) - 1))
  {
    hide RetryFrom, NoticedFrom;
    assert Pow2(0) == 1;
    ScheduleFrom(1, INITIAL_BACKOFF, 0, env, last);
    VerdictFrom(1, INITIAL_BACKOFF, 0, env, last);
    var r := Retry(env, last);
    var j := if r.calls[i].independent then i - 1 else i;
    RegularCalls(1, INITIAL_BACKOFF, 0, env, last, j);
    WaitBound(j);
    assert InTime(r.calls, 0, i) && InTime(r.calls, 0, j);
  }

  // ------------------------------------- exactly how far the retries go

  /** Attempt j fails and cancellation shows at no moment up to the next attempt. */
  predicate GoesOn(j: nat, env: nat -> Attempt) {
    env(j).reply.Failed? && !env(j).stop.afterFailure && !env(j).stop.inWait
  }

  lemma OneMore(i: nat, backoff: nat, waited: nat, env: nat -> Attempt, last: nat -> Reply)
    requires 1 <= i < MAX_ATTEMPTS && GoesOn(i, env)
    ensures var r, rest := RetryFrom(i, backoff, waited, env, last),
                           RetryFrom(i + 1, NextBackoff(backoff), waited + backoff, env, last);
            |r.calls| == |rest.calls| + 1 && r.calls[1..] == rest.calls && r.verdict == rest.verdict
  {
    hide NextBackoff;
  }

  /** The report is the tail with n calls in front. */
  predicate EndsIn(r: Report, n: nat, tail: Report) {
    |r.calls| == n + |tail.calls| && r.calls[n..] == tail.calls && r.verdict == tail.verdict
  }

  lemma EndsInMore(r: Report, rest: Report, n: nat, tail: Report)
    requires EndsIn(r, 1, rest) && EndsIn(rest, n, tail)
    ensures EndsIn(r, n + 1, tail)
  {
    assert r.calls[n + 1..] == r.calls[1..][n..];
  }

  /** While attempts go on, the report is that of the later attempts with the calls so far
      in front. */
  lemma {:induction false} SkipTo(i: nat, k: nat, backoff: nat, waited: nat, env: nat -> Attempt, last: nat -> Reply)
    requires 1 <= i <= k <= MAX_ATTEMPTS && forall j :: i <= j < k ==> GoesOn(j, env)
    ensures exists b: nat, w: nat ::
              EndsIn(RetryFrom(i, backoff, waited, env, last), k - i, RetryFrom(k, b, w, env, last))
    decreases k - i
  {
    hide RetryFrom, NextBackoff, GoesOn;
    var r := RetryFrom(i, backoff, waited, env, last);
    if i == k {
      assert r.calls[0..] == r.calls;
      assert EndsIn(r, 0, r);
    } else {
      OneMore(i, backoff, waited, env, last);
      var rest := RetryFrom(i + 1, NextBackoff(backoff), waited + backoff, env, last);
      SkipTo(i + 1, k, NextBackoff(backoff), waited + backoff, env, last);
      var b: nat, w: nat :| EndsIn(rest, k - (i + 1), RetryFrom(k, b, w, env, last));
      EndsInMore(r, rest, k - (i + 1), RetryFrom(k, b, w, env, last));
    }
  }

  /** If the attempts before attempt k failed without cancellation, k is at most 5 and
      attempt k is answered, then exactly k calls are made and that answer decides. */
  lemma AnsweredStops(env: nat -> Attempt, last: nat -> Reply, k: nat)
    requires 1 <= k <= 5 && env(k).reply != Failed
    requires forall j :: 1 <= j < k ==>
               env(j).reply.Failed? && !env(j).stop.afterFailure && !env(j).stop.inWait
    ensures var r := Retry(env, last);
            |r.calls| == k && r.verdict == if env(k).reply.Written? then WrittenBack else DroppedStale
  {
    SkipTo(1, k, INITIAL_BACKOFF, 0, env, last);
  }

  /** If they failed without cancellation and attempt k fails with cancellation noticed, the
      call of last resort follows and decides. */
  lemma CancelledStops(env: nat -> Attempt, last: nat -> Reply, k: nat)
    requires 1 <= k <= 5 && env(k).reply.Failed?
    requires env(k).stop.afterFailure || (k < 5 && env(k).stop.inWait)
    requires forall j :: 1 <= j < k ==>
               env(j).reply.Failed? && !env(j).stop.afterFailure && !env(j).stop.inWait
    ensures var r := Retry(env, last);
            && |r.calls| == k + 1 && r.calls[k].independent && r.calls[k].reply == last(k)
            && (forall i :: 0 <= i < k ==> !r.calls[i].independent)
            && r.verdict == match last(k)
                            case Written => WrittenBack
                            case Stale => DroppedStale
                            case Failed => LostInShutdown
  {
    SkipTo(1, k, INITIAL_BACKOFF, 0, env, last);
    var r := Retry(env, last);
    assert r.calls[k] == r.calls[k - 1..][1];
    VerdictFrom(1, INITIAL_BACKOFF, 0, env, last);
  }

  /** If all five failed without cancellation, the pair is lost after five calls. */
  lemma FiveFail(env: nat -> Attempt, last: nat -> Reply)
    requires forall j :: 1 <= j <= 5 ==> env(j).reply.Failed? && !env(j).stop.afterFailure
    requires forall j :: 1 <= j < 5 ==> !env(j).stop.inWait
    ensures |Retry(env, last).calls| == 5 && Retry(env, last).verdict == LostAfterAttempts
  {
    SkipTo(1, 5, INITIAL_BACKOFF, 0, env, last);
  }

  /** One of the three happens. */
  lemma {:induction false} FirstDecision(env: nat -> Attempt, i: nat) returns (k: nat)
    requires 1 <= i <= 6 && forall j :: 1 <= j < i ==>
               env(j).reply.Failed? && !env(j).stop.afterFailure && (j < 5 ==> !env(j).stop.inWait)
    ensures i <= k <= 6
    ensures forall j :: 1 <= j < k ==>
              env(j).reply.Failed? && !env(j).stop.afterFailure && (j < 5 ==> !env(j).stop.inWait)
    ensures k <= 5 ==> env(k).reply != Failed || env(k).stop.afterFailure || (k < 5 && env(k).stop.inWait)
    decreases 6 - i
  {
    k := i;
    if i <= 5 && env(i).reply.Failed? && !env(i).stop.afterFailure && (i < 5 ==> !env(i).stop.inWait) {
      k := FirstDecision(env, i + 1);
    }
  }

  /** A pair is lost for good exactly when five attempts failed and cancellation showed
      neither after one of them nor in one of the four waits. */
  lemma LostExactly(env: nat -> Attempt, last: nat -> Reply)
    ensures Retry(env, last).verdict.LostAfterAttempts?
       <==> && (forall j :: 1 <= j <= 5 ==> env(j).reply.Failed? && !env(j).stop.afterFailure)
            && (forall j :: 1 <= j < 5 ==> !env(j).stop.inWait)
  {
    hide Retry;
    var k := FirstDecision(env, 1);
    if k == 6 {
      FiveFail(env, last);
    } else if env(k).reply.Failed? {
      CancelledStops(env, last, k);
    } else {
      AnsweredStops(env, last, k);
    }
  }

  /** The call of last resort is made exactly when some attempt fails and cancellation shows
      after it or, before the fifth, in the wait that follows, while the attempts before it
      failed without cancellation. */
  lemma ResortExactly(env: nat -> Attempt, last: nat -> Reply)
    ensures (exists i :: 0 <= i < |Retry(env, last).calls| && Retry(env, last).calls[i].independent)
       <==> exists k: nat ::
              && 1 <= k <= 5 && env(k).reply.Failed?
              && (env(k).stop.afterFailure || (k < 5 && env(k).stop.inWait))
              && forall j :: 1 <= j < k ==> GoesOn(j, env)
  {
    hide Retry;
    var r := Retry(env, last);
    var k := FirstDecision(env, 1);
    assert forall j :: 1 <= j < k && j < 5 ==> GoesOn(j, env);
    if k == 6 {
      FiveFail(env, last);
      NoResort(env, last);
    } else if env(k).reply.Failed? {
      CancelledStops(env, last, k);
    } else {
      AnsweredStops(env, last, k);
      NoResort(env, last);
      assert forall m: nat :: 1 <= m <= 5 && m < k ==> GoesOn(m, env);
      assert !GoesOn(k, env);
    }
  }

  /** The verdict tells whether the last call was one of last resort. */
  lemma NoResort(env: nat -> Attempt, last: nat -> Reply)
    ensures var r := Retry(env, last);
            (exists i :: 0 <= i < |r.calls| && r.calls[i].independent) <==> NoticedFrom(1, env)
  {
    ShutdownGetsOwnAttempt(env, last);
  }
}
