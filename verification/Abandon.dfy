/** Abandoning a match: cancel every listed player, going on past failures. */
module Abandon {
  import opened Bytes
  import opened SortedSet
  import opened R = RedisQueue

  /** A cancel fails on the empty ID and whenever no reply arrives. */
  predicate CancelFails(p: Text, net: Net) { p == [] || !net.Delivered? }

  /** The listed players whose cancel failed, in order. */
  function Failures(ids: seq<Text>, nets: nat -> Net): seq<Text> {
    if ids == [] then []
    else
      var n := |ids| - 1;
      Failures(ids[..n], nets) + if CancelFails(ids[n], nets(n)) then [ids[n]] else []
  }

  /** The players whose cancel script ran, whether or not the caller learned it. */
  function Removed(ids: seq<Text>, nets: nat -> Net): set<Text> {
    set i: nat | i < |ids| && ids[i] != [] && !nets(i).NotSent? :: ids[i]
  }

  function RemoveAll(q: ZSet, players: set<Text>): ZSet {
    map m | m in q && FirstField(m) !in players :: q[m]
  }

  lemma RemoveAllSnoc(q: ZSet, ids: seq<Text>, nets: nat -> Net, n: nat)
    requires n < |ids|
    ensures RemoveAll(q, Removed(ids[..n + 1], nets))
         == if ids[n] != [] && !nets(n).NotSent?
            then RemovePlayer(RemoveAll(q, Removed(ids[..n], nets)), ids[n])
            else RemoveAll(q, Removed(ids[..n], nets))
  {
    hide FirstField;
    var old', new' := Removed(ids[..n], nets), Removed(ids[..n + 1], nets);
    forall p | p in old' ensures p in new' {
      var i: nat :| i < n && ids[..n][i] == p && p != [] && !nets(i).NotSent?;
      assert ids[..n + 1][i] == p;
    }
    if ids[n] != [] && !nets(n).NotSent? {
      assert ids[..n + 1][n] == ids[n];
      assert new' == old' + {ids[n]} by {
        forall p | p in new' ensures p in old' + {ids[n]} {
          var i: nat :| i < n + 1 && ids[..n + 1][i] == p && p != [] && !nets(i).NotSent?;
          assert i < n ==> ids[..n][i] == p;
        }
      }
    } else {
      assert new' == old' by {
        forall p | p in new' ensures p in old' {
          var i: nat :| i < n + 1 && ids[..n + 1][i] == p && p != [] && !nets(i).NotSent?;
          assert ids[..n][i] == p;
        }
      }
    }
  }

  class Abandoner {
    const queue: RedisQueue

    constructor (queue: RedisQueue)
      ensures this.queue == queue
    {
      this.queue := queue;
    }

    /** Every listed player is tried in order whatever fails.  The failures are reported
        together; the store loses exactly the entries of the players whose script ran. */
    method Abandon(ids: seq<Text>, nets: nat -> Net) returns (failed: seq<Text>)
      modifies queue
      ensures failed == Failures(ids, nets)
      ensures queue.State() == old(queue.State()).(queue := RemoveAll(old(queue.queue), Removed(ids, nets)))
    {
      hide FirstField, RemovePlayer, RemoveAll, Removed;
      NobodyRemoved(queue.queue, nets);
      failed := [];
      var i := 0;
      while i < |ids|
        invariant 0 <= i <= |ids|
        invariant failed == Failures(ids[..i], nets)
        invariant queue.State() == old(queue.State()).(queue := RemoveAll(old(queue.queue), Removed(ids[..i], nets)))
      {
        RemoveAllSnoc(old(queue.queue), ids, nets, i);
        assert ids[..i + 1][..i] == ids[..i];
        var r := queue.Cancel(ids[i], nets(i));
        if r.Err? {
          failed := failed + [ids[i]];
        }
        i := i + 1;
      }
      assert ids[..i] == ids;
    }
  }

  lemma NobodyRemoved(q: ZSet, nets: nat -> Net)
    ensures RemoveAll(q, Removed([], nets)) == q
  {
  }

  /** The call succeeds if and only if every cancel succeeded. */
  lemma {:induction false} SucceedsIffAllDo(ids: seq<Text>, nets: nat -> Net)
    ensures Failures(ids, nets) == [] <==> forall i: nat :: i < |ids| ==> !CancelFails(ids[i], nets(i))
    decreases |ids|
  {
    if ids != [] {
      var n := |ids| - 1;
      SucceedsIffAllDo(ids[..n], nets);
      forall i: nat | i < n ensures ids[..n][i] == ids[i] {
      }
      if !CancelFails(ids[n], nets(n)) && forall i: nat :: i < n ==> !CancelFails(ids[..n][i], nets(i)) {
        forall i: nat | i < |ids| ensures !CancelFails(ids[i], nets(i)) {
          if i < n {
            assert ids[..n][i] == ids[i];
          }
        }
      }
    }
  }

  /** On success none of the listed players is left and every other entry keeps its
      score. */
  lemma SuccessRemovesAll(q: ZSet, ids: seq<Text>, nets: nat -> Net)
    requires Failures(ids, nets) == []
    ensures var after := RemoveAll(q, Removed(ids, nets));
            && (forall m :: m in after ==> FirstField(m) !in ids)
            && (forall m :: m in q && FirstField(m) !in ids ==> m in after && after[m] == q[m])
            && (forall m :: m in after ==> m in q)
  {
    hide FirstField;
    SucceedsIffAllDo(ids, nets);
    forall p | p in ids ensures p in Removed(ids, nets) {
      var i: nat :| i < |ids| && ids[i] == p;
      assert !CancelFails(ids[i], nets(i));
    }
    forall p | p in Removed(ids, nets) ensures p in ids {
    }
  }

  /** Repeating a call that succeeded changes nothing, whatever the second call meets. */
  lemma RepeatChangesNothing(q: ZSet, ids: seq<Text>, nets: nat -> Net, again: nat -> Net)
    requires Failures(ids, nets) == []
    ensures RemoveAll(RemoveAll(q, Removed(ids, nets)), Removed(ids, again)) == RemoveAll(q, Removed(ids, nets))
  {
    hide FirstField;
    SuccessRemovesAll(q, ids, nets);
    forall p | p in Removed(ids, again) ensures p in ids {
    }
  }

  /** An ID with a colon is nobody's first field: cancelling it removes nothing from any
      store. */
  lemma ColonRemovesNothing(s: Store, p: Text)
    requires COLON in p
    ensures CancelScript(s, p) == s
  {
    assert RemovePlayer(s.queue, p) == s.queue;
  }

  /** Exactly the players whose cancel failed are reported, wherever they stand. */
  lemma {:induction false} ReportsExactly(ids: seq<Text>, nets: nat -> Net, p: Text)
    ensures p in Failures(ids, nets)
       <==> exists i: nat :: i < |ids| && ids[i] == p && (p == [] || !nets(i).Delivered?)
    decreases |ids|
  {
    if ids != [] {
      var n := |ids| - 1;
      ReportsExactly(ids[..n], nets, p);
      if i: nat :| i < n && ids[i] == p && (p == [] || !nets(i).Delivered?) {
        assert ids[..n][i] == p;
      }
      if i: nat :| i < n && ids[..n][i] == p && (p == [] || !nets(i).Delivered?) {
        assert ids[i] == p;
      }
    }
  }

  /** Failures stop nothing: whatever the other cancels meet, an entry is removed exactly when
      the script ran for its player somewhere in the list. */
  lemma GoesPastFailures(q: ZSet, ids: seq<Text>, nets: nat -> Net, m: Text)
    requires m in q
    ensures m !in RemoveAll(q, Removed(ids, nets))
       <==> exists i: nat :: i < |ids| && ids[i] == FirstField(m) && ids[i] != [] && !nets(i).NotSent?
  {
    hide FirstField;
  }
}
