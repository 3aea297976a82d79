/** The mutable queue: Redis commands, the Lua scripts written with them, and the
    Go methods that run the scripts. */
module RedisQueue {
  import opened Bytes
  import opened Member
  import opened SortedSet
  import Decimal

  /** What became of one call to Redis. */
  datatype Net =
    | Delivered   // the script ran and its reply arrived
    | NotSent     // the call failed and the script never ran
    | ReplyLost   // the script ran but the caller saw an error

  class RedisQueue {
    var queue: ZSet
    var instance: Option<Text>

    ghost function State(): Store
      reads this
    {
      Store(queue, instance)
    }

    constructor ()
      ensures State() == Store(map[], None)
    {
      queue := map[];
      instance := None;
    }

    // ------------------------------------------------------ Redis commands

    static method LeastMember(q: ZSet) returns (best: Text)
      requires q != map[]
      ensures IsLeast(q, best)
    {
      best :| best in q;
      var rest := q.Keys - {best};
      while rest != {}
        invariant best in q && rest <= q.Keys && best !in rest
        invariant forall n :: n in q && n !in rest && n != best ==> Before(KeyIn(q, best), KeyIn(q, n))
        decreases rest
      {
        var n :| n in rest;
        rest := rest - {n};
        BeforeTotal(KeyIn(q, best), KeyIn(q, n));
        if q[n] < q[best] || (q[n] == q[best] && LexLess(n, best)) {
          forall k | k in q && k !in rest && k != n ensures Before(KeyIn(q, n), KeyIn(q, k)) {
            if k != best {
              BeforeTransitive(KeyIn(q, n), KeyIn(q, best), KeyIn(q, k));
            }
          }
          best := n;
        }
      }
    }

    /** ZRANGE 0 -1: all members, least first. */
    method ZRange() returns (members: seq<Text>)
      ensures forall m :: m in members <==> m in queue
      ensures forall i, j :: 0 <= i < j < |members| ==>
                Before(KeyIn(queue, members[i]), KeyIn(queue, members[j]))
    {
      members := [];
      var left := queue;
      while left != map[]
        invariant left.Keys <= queue.Keys && forall m :: m in left ==> left[m] == queue[m]
        invariant forall m :: m in members ==> m in queue
        invariant forall m :: m in queue <==> m in left || m in members
        invariant forall m, n :: m in members && n in left ==> Before(KeyIn(queue, m), KeyIn(queue, n))
        invariant forall i, j :: 0 <= i < j < |members| ==>
                    Before(KeyIn(queue, members[i]), KeyIn(queue, members[j]))
        decreases |left|
      {
        var m := LeastMember(left);
        RemainderSize(left, m);
        assert forall n :: n in left && n != m ==> Before(KeyIn(queue, m), KeyIn(queue, n));
        members := members + [m];
        left := left - {m};
      }
    }

    method ZRem(m: Text) returns (removed: nat)
      modifies this`queue
      ensures queue == old(queue) - {m}
      ensures removed == if m in old(queue) then 1 else 0
    {
      removed := if m in queue then 1 else 0;
      queue := queue - {m};
    }

    method ZAdd(m: Text, score: Millis)
      modifies this`queue
      ensures queue == old(queue)[m := score]
    {
      queue := queue[m := score];
    }

    /** ZPOPMIN: removes up to `count` members, least first, with their scores. */
    method ZPopMin(count: nat) returns (popped: seq<(Text, Millis)>)
      requires count <= |queue|
      modifies this`queue
      ensures |popped| == count
      ensures forall i :: 0 <= i < count ==>
                IsLeast(Drop(old(queue), popped[..i]), popped[i].0) && popped[i].1 == old(queue)[popped[i].0]
      ensures queue == Drop(old(queue), popped)
    {
      popped := [];
      while |popped| < count
        invariant |popped| <= count
        invariant |queue| == |old(queue)| - |popped|
        invariant queue == Drop(old(queue), popped)
        invariant forall i :: 0 <= i < |popped| ==>
                    IsLeast(Drop(old(queue), popped[..i]), popped[i].0) && popped[i].1 == old(queue)[popped[i].0]
      {
        var m := LeastMember(queue);
        RemainderSize(queue, m);
        ghost var before := popped;
        popped := popped + [(m, queue[m])];
        DropSnoc(old(queue), before, popped[|before|]);
        queue := queue - {m};
        assert popped[..|before|] == before;
        assert forall i :: 0 <= i < |before| ==> popped[..i] == before[..i];
      }
      assert popped[..|popped|] == popped;
    }

    // ------------------------------------------------------------- scripts

    method ZRemCounted(m: Text) returns (removed: nat)
      modifies this`queue
      ensures queue == old(queue) - {m}
      ensures removed == |old(queue)| - |queue|
    {
      removed := ZRem(m);
      if m in old(queue) {
        RemainderSize(old(queue), m);
      } else {
        assert queue == old(queue);
      }
    }

    /** Removes a player's members one by one over a snapshot, counting them. */
    method RemovePlayerEntries(p: Text) returns (removed: nat)
      modifies this`queue
      ensures queue == RemovePlayer(old(queue), p)
      ensures removed == |old(queue)| - |queue|
    {
      hide FirstField, Swept, RemovePlayer;
      removed := 0;
      var members := ZRange();
      SweptNone(queue, p);
      var i := 0;
      while i < |members|
        invariant 0 <= i <= |members|
        invariant queue == Swept(old(queue), p, members[..i])
        invariant removed == |old(queue)| - |queue|
      {
        SweptStep(old(queue), p, members[..i], members[i]);
        assert members[..i] + [members[i]] == members[..i + 1];
        if FirstField(members[i]) == p {
          var n := ZRemCounted(members[i]);  // what ZREM returns
          removed := removed + n;
        }
        i := i + 1;
      }
      assert members[..i] == members;
      SweptAll(old(queue), p, members);
    }

    method RunEnqueue(p: Text, m: Text, score: Millis, gateway: Text) returns (removed: nat)
      modifies this
      ensures State() == EnqueueScript(old(State()), p, m, score, gateway).after
      ensures removed == EnqueueScript(old(State()), p, m, score, gateway).removed
    {
      removed := 0;
      if instance != Some(gateway) {
        removed := |queue|;
        queue := map[];
      }
      instance := Some(gateway);
      var _ := RemovePlayerEntries(p);
      ZAdd(m, score);
    }

    method RunCancel(p: Text) returns (removed: nat)
      modifies this
      ensures State() == CancelScript(old(State()), p)
      ensures removed == |old(queue)| - |queue|
    {
      removed := RemovePlayerEntries(p);
    }

    method RunPopPair() returns (values: seq<Text>)
      modifies this
      ensures State() == PopScript(old(State())).after
      ensures values == PopScript(old(State())).values
    {
      hide Decimal.FormatInt, PopScript;
      if |queue| < 2 {
        PopScriptNone(State());
        return [];
      }
      ghost var q0 := queue;
      var pair := ZPopMin(2);
      var a, b := pair[0].0, pair[1].0;
      assert pair[..0] == [] && pair[..1] == [pair[0]];
      assert Drop(q0, []) == q0 && Drop(q0, pair[..1]) == q0 - {a};
      PopScriptOf(old(State()), a, b);
      values := [HeldText(instance)];
      var i := 0;
      while i < |pair|
        invariant 0 <= i <= |pair| == 2
        invariant i == 0 ==> values == Reply(HeldText(instance), [])
        invariant i == 1 ==> values == Reply(HeldText(instance), [a, Decimal.FormatInt(q0[a])])
        invariant i == 2 ==>
                    values == Reply(HeldText(instance), [a, Decimal.FormatInt(q0[a]), b, Decimal.FormatInt(q0[b])])
      {
        values := values + [pair[i].0, Decimal.FormatInt(pair[i].1)];
        i := i + 1;
      }
    }

    method RunReenqueue(expected: Text, ts: seq<Triple>) returns (written: nat)
      modifies this
      ensures State() == ReenqueueScript(old(State()), expected, ts)
      ensures written == if HeldText(old(instance)) == expected then 1 else 0
    {
      var stored := HeldText(instance);
      if stored != expected {
        return 0;
      }
      var i := 0;
      while i < |ts|
        invariant 0 <= i <= |ts|
        invariant queue == PutAll(old(queue), ts[..i])
        invariant instance == old(instance)
      {
        var _ := RemovePlayerEntries(ts[i].player);
        ZAdd(ts[i].member, ts[i].score);
        assert ts[..i + 1] == ts[..i] + [ts[i]];
        PutAllSnoc(old(queue), ts[..i], ts[i]);
        i := i + 1;
      }
      assert ts[..i] == ts;
      return 1;
    }

    // ---------------------------------------------------------- Go methods

    method Enqueue(p: Text, deckID: Int64, name: Text, level: Int64, gateway: Text, now: Millis, net: Net)
      returns (r: Result<nat>)
      modifies this
      ensures !ValidPlayerID(p) || gateway == [] ==> r.Err? && State() == old(State())
      ensures ValidPlayerID(p) && gateway != [] ==>
                var reply := EnqueueScript(old(State()), p, Encode(p, deckID, level, name), now, gateway);
                && State() == (if net.NotSent? then old(State()) else reply.after)
                && r == (if net.Delivered? then Ok(reply.removed) else Err(Transport))
    {
      var invalid := ValidateMemberPlayerID(p);
      if invalid.Some? {
        return Err(invalid.value);
      }
      if gateway == [] {
        return Err(GatewayEmpty);
      }
      if net.NotSent? {
        return Err(Transport);
      }
      var removed := RunEnqueue(p, Encode(p, deckID, level, name), now, gateway);
      r := if net.Delivered? then Ok(removed) else Err(Transport);
    }

    method Cancel(p: Text, net: Net) returns (r: Result<bool>)
      modifies this
      ensures p == [] ==> r == Err(PlayerIDEmpty) && State() == old(State())
      ensures p != [] ==>
                && State() == (if net.NotSent? then old(State()) else CancelScript(old(State()), p))
                && r == (if net.Delivered?
                    then Ok(|CancelScript(old(State()), p).queue| < |old(queue)|) else Err(Transport))
    {
      if p == [] {
        return Err(PlayerIDEmpty);
      }
      if net.NotSent? {
        return Err(Transport);
      }
      var removed := RunCancel(p);
      r := if net.Delivered? then Ok(removed > 0) else Err(Transport);
    }

    method Size(net: Net) returns (r: Result<nat>)
      ensures r == if net.Delivered? then Ok(|queue|) else Err(Transport)
    {
      r := if net.Delivered? then Ok(|queue|) else Err(Transport);
    }

    method PopPair(net: Net) returns (r: Result<Popped>)
      modifies this
      ensures State() == if net.NotSent? then old(State()) else PopScript(old(State())).after
      ensures r == if net.Delivered? then PopResult(old(State())) else Err(Transport)
    {
      if net.NotSent? {
        return Err(Transport);
      }
      var values := RunPopPair();
      if net.ReplyLost? {
        return Err(Transport);
      }
      if |values| == 0 {
        return Ok(Popped([], []));
      }
      var entries := DecodeScored(values[1..]);
      r := if entries.Ok? then Ok(Popped(entries.value, values[0])) else Err(entries.error);
    }

    /** PopPair's loop over the reply. */
    static method DecodeScored(raw: seq<Text>) returns (r: Result<seq<QueueEntry>>)
      requires Paired(raw)
      ensures r == DecodeValues(raw)
    {
      hide DecodeOne;
      var entries: seq<QueueEntry> := [];
      var i := 0;
      assert raw[0..] == raw && forall es: seq<QueueEntry> :: entries + es == es;
      while i < |raw|
        invariant 0 <= i <= |raw| && Paired(raw[i..])
        invariant DecodeValues(raw) == Onto(entries, DecodeValues(raw[i..]))
      {
        DecodeValuesStep(raw, i, entries);
        var entry := DecodeOne(raw[i], raw[i + 1]);
        if entry.Err? {
          return Err(entry.error);
        }
        entries := entries + [entry.value];
        i := i + 2;
      }
      assert raw[i..] == [] && entries + [] == entries;
      r := Ok(entries);
    }

    method Reenqueue(entries: seq<QueueEntry>, gateway: Text, net: Net) returns (r: Result<bool>)
      modifies this
      ensures FirstInvalid(entries).Some? ==> r == Err(FirstInvalid(entries).value) && State() == old(State())
      ensures FirstInvalid(entries).None? ==>
                && State() == (if net.NotSent? then old(State())
                               else ReenqueueScript(old(State()), gateway, TriplesOf(entries)))
                && r == (if net.Delivered? then Ok(HeldText(old(instance)) == gateway) else Err(Transport))
    {
      hide ReenqueueScript, Encode;
      var ts: seq<Triple> := [];
      var i := 0;
      while i < |entries|
        invariant 0 <= i <= |entries| == |ts| + (|entries| - i)
        invariant forall k :: 0 <= k < i ==> ts[k] == TripleOf(entries[k])
        invariant FirstInvalid(entries) == FirstInvalid(entries[i..])
      {
        var invalid := ValidateMemberPlayerID(entries[i].playerID);
        assert entries[i..][1..] == entries[i + 1..];
        if invalid.Some? {
          return Err(invalid.value);
        }
        ts := ts + [TripleOf(entries[i])];
        i := i + 1;
      }
      assert ts == TriplesOf(entries);
      if net.NotSent? {
        return Err(Transport);
      }
      var written := RunReenqueue(gateway, ts);
      r := if net.Delivered? then Ok(written > 0) else Err(Transport);
    }
  }

  /** A decoding result with earlier entries put in front. */
  function Onto(front: seq<QueueEntry>, r: Result<seq<QueueEntry>>): Result<seq<QueueEntry>> {
    if r.Ok? then Ok(front + r.value) else r
  }

  lemma DecodeValuesStep(raw: seq<Text>, i: nat, front: seq<QueueEntry>)
    requires Paired(raw) && i + 1 < |raw| && Paired(raw[i..])
    ensures raw[i..][2..] == raw[i + 2..] && Paired(raw[i + 2..])
    ensures var head := DecodeOne(raw[i], raw[i + 1]);
            Onto(front, DecodeValues(raw[i..]))
            == if head.Err? then Err(head.error) else Onto(front + [head.value], DecodeValues(raw[i + 2..]))
  {
    hide DecodeOne;
    var rest, head := raw[i..], DecodeOne(raw[i], raw[i + 1]);
    assert rest[0] == raw[i] && rest[1] == raw[i + 1] && rest[2..] == raw[i + 2..];
    var tail := DecodeValues(raw[i + 2..]);
    if head.Ok? && tail.Ok? {
      assert front + ([head.value] + tail.value) == (front + [head.value]) + tail.value;
    }
  }

  lemma DropSnoc(q: ZSet, gone: seq<(Text, Millis)>, x: (Text, Millis))
    ensures Drop(q, gone + [x]) == Drop(q, gone) - {x.0}
  {
    var more := gone + [x];
    assert more[|gone|] == x;
    assert forall i :: 0 <= i < |gone| ==> more[i] == gone[i];
    forall m | m in Drop(q, gone) - {x.0} ensures m in Drop(q, more) {
    }
    forall m | m in Drop(q, more) ensures m in Drop(q, gone) - {x.0} {
      assert more[|gone|].0 != m;
      assert forall i :: 0 <= i < |gone| ==> more[i].0 != m;
    }
  }

  /** A sorted set without the given members. */
  function Drop(q: ZSet, gone: seq<(Text, Millis)>): ZSet {
    map m | m in q && (forall i :: 0 <= i < |gone| ==> gone[i].0 != m) :: q[m]
  }
}
