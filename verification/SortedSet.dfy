/** The sorted set behind the queue and the four scripts that change it, as
    functions from store to store.  Redis runs each script atomically. */
module SortedSet {
  import opened Bytes
  import opened Member
  import Decimal

  type ZSet = map<Text, Millis>

  function KeyIn(q: ZSet, m: Text): Key
    requires m in q
  {
    Key(q[m], m)
  }

  predicate IsLeast(q: ZSet, m: Text) {
    m in q && forall n :: n in q && n != m ==> Before(KeyIn(q, m), KeyIn(q, n))
  }

  lemma {:induction false} LeastExists(q: ZSet)
    requires q != map[]
    ensures exists m :: IsLeast(q, m)
    decreases |q|
  {
    var k :| k in q;
    var rest := q - {k};
    if rest == map[] {
      assert forall n :: n in q && n != k ==> n in rest;
      assert IsLeast(q, k);
    } else {
      assert rest.Keys == q.Keys - {k};
      LeastExists(rest);
      var m :| IsLeast(rest, m);
      BeforeTotal(KeyIn(q, k), KeyIn(q, m));
      if Before(KeyIn(q, k), KeyIn(q, m)) {
        forall n | n in q && n != k ensures Before(KeyIn(q, k), KeyIn(q, n)) {
          if n != m {
            assert n in rest;
            BeforeTransitive(KeyIn(q, k), KeyIn(q, m), KeyIn(q, n));
          }
        }
        assert IsLeast(q, k);
      } else {
        assert forall n :: n in q && n != k ==> n in rest;
        assert IsLeast(q, m);
      }
    }
  }

  lemma LeastUnique(q: ZSet, m: Text, n: Text)
    requires IsLeast(q, m) && IsLeast(q, n)
    ensures m == n
  {
    if m != n {
      BeforeAsymmetric(KeyIn(q, m), KeyIn(q, n));
    }
  }

  ghost function Least(q: ZSet): (m: Text)
    requires q != map[]
    ensures IsLeast(q, m)
  {
    LeastExists(q);
    var m :| IsLeast(q, m);
    m
  }

  // --------------------------------------------------------------- scripts

  datatype Store = Store(queue: ZSet, instance: Option<Text>)

  /** Every member whose first field is not the player's. */
  function RemovePlayer(q: ZSet, p: Text): ZSet {
    map m | m in q && FirstField(m) != p :: q[m]
  }

  /** A sweep for the player's members that has looked at `seen` so far. */
  function Swept(q: ZSet, p: Text, seen: seq<Text>): ZSet {
    map m | m in q && !(m in seen && FirstField(m) == p) :: q[m]
  }

  lemma SweptNone(q: ZSet, p: Text)
    ensures Swept(q, p, []) == q
  {
  }

  lemma SweptStep(q: ZSet, p: Text, seen: seq<Text>, m: Text)
    ensures Swept(q, p, seen + [m])
         == if FirstField(m) == p then Swept(q, p, seen) - {m} else Swept(q, p, seen)
  {
  }

  lemma SweptAll(q: ZSet, p: Text, seen: seq<Text>)
    requires forall m :: m in q ==> m in seen
    ensures Swept(q, p, seen) == RemovePlayer(q, p)
  {
  }

  function Put(q: ZSet, p: Text, m: Text, score: Millis): ZSet {
    RemovePlayer(q, p)[m := score]
  }

  datatype EnqueueReply = EnqueueReply(after: Store, removed: nat)

  function EnqueueScript(s: Store, p: Text, m: Text, score: Millis, gateway: Text): EnqueueReply {
    var reset := s.instance != Some(gateway);
    EnqueueReply(Store(Put(if reset then map[] else s.queue, p, m, score), Some(gateway)),
                 if reset then |s.queue| else 0)
  }

  function CancelScript(s: Store, p: Text): Store {
    s.(queue := RemovePlayer(s.queue, p))
  }

  function HeldText(instance: Option<Text>): Text {
    match instance case None => [] case Some(g) => g
  }

  function Reply(held: Text, scored: seq<Text>): (values: seq<Text>)
    ensures values != [] && values[0] == held && values[1..] == scored
  {
    [held] + scored
  }

  lemma PairedFour(raw: seq<Text>)
    requires |raw| == 4
    ensures Paired(raw)
  {
    assert Paired(raw[2..][2..]);
    assert Paired(raw[2..]);
  }

  datatype PopReply = PopReply(after: Store, values: seq<Text>)

  ghost function PopScript(s: Store): (r: PopReply)
    ensures r.values == [] || (|r.values| == 5 && Paired(r.values[1..]))
  {
    if |s.queue| < 2 then PopReply(s, [])
    else
      var a := Least(s.queue);
      var rest := s.queue - {a};
      RemainderSize(s.queue, a);
      var b := Least(rest);
      var scored := [a, Decimal.FormatInt(s.queue[a]), b, Decimal.FormatInt(s.queue[b])];
      PairedFour(scored);
      PopReply(s.(queue := rest - {b}), Reply(HeldText(s.instance), scored))
  }

  lemma RemainderSize(q: ZSet, m: Text)
    requires m in q
    ensures |q - {m}| == |q| - 1
    ensures |q| >= 2 ==> q - {m} != map[]
  {
    assert (q - {m}).Keys == q.Keys - {m};
  }

  lemma PopScriptNone(s: Store)
    requires |s.queue| < 2
    ensures PopScript(s) == PopReply(s, [])
  {
  }

  lemma PopScriptOf(s: Store, a: Text, b: Text)
    requires |s.queue| >= 2 && IsLeast(s.queue, a) && IsLeast(s.queue - {a}, b)
    ensures PopScript(s)
         == PopReply(s.(queue := s.queue - {a} - {b}),
                     Reply(HeldText(s.instance),
                           [a, Decimal.FormatInt(s.queue[a]), b, Decimal.FormatInt(s.queue[b])]))
  {
    LeastUnique(s.queue, a, Least(s.queue));
    RemainderSize(s.queue, a);
    LeastUnique(s.queue - {a}, b, Least(s.queue - {a}));
  }

  datatype Triple = Triple(player: Text, member: Text, score: Millis)

  function PutAll(q: ZSet, ts: seq<Triple>): ZSet
    decreases |ts|
  {
    if ts == [] then q
    else PutAll(Put(q, ts[0].player, ts[0].member, ts[0].score), ts[1..])
  }

  function ReenqueueScript(s: Store, expected: Text, ts: seq<Triple>): Store {
    if HeldText(s.instance) == expected then s.(queue := PutAll(s.queue, ts)) else s
  }

  // ------------------------------------------------------- replies in Go

  function ParseScore(t: Text): Option<Millis> {
    match Decimal.ParseInt(t)
    case Some(v) => if -TWO_53 <= v <= TWO_53 then Some(v) else None
    case None => None
  }

  function DecodeOne(member: Text, score: Text): Result<QueueEntry> {
    match Decode(member)
    case Err(e) => Err(e)
    case Ok(x) =>
      match ParseScore(score)
      case None => Err(BadScore)
      case Some(at) => Ok(QueueEntry(x.playerID, x.deckID, x.name, x.level, at))
  }

  /** The texts come two by two, as ZPOPMIN returns them. */
  predicate Paired(raw: seq<Text>)
    decreases |raw|
  {
    raw == [] || (|raw| >= 2 && Paired(raw[2..]))
  }

  /** The decoding loop of PopPair over (member, score) texts: the first failure
      wins. */
  function DecodeValues(raw: seq<Text>): (r: Result<seq<QueueEntry>>)
    requires Paired(raw)
    ensures r.Ok? ==> |r.value| * 2 == |raw|
    decreases |raw|
  {
    if raw == [] then Ok([])
    else
      var head := DecodeOne(raw[0], raw[1]);
      if head.Err? then Err(head.error)
      else
        var tail := DecodeValues(raw[2..]);
        if tail.Err? then tail else Ok([head.value] + tail.value)
  }

  datatype Popped = Popped(entries: seq<QueueEntry>, gateway: Text)

  ghost function PopResult(s: Store): Result<Popped> {
    var values := PopScript(s).values;
    if values == [] then Ok(Popped([], []))
    else
      match DecodeValues(values[1..])
      case Ok(es) => Ok(Popped(es, values[0]))
      case Err(e) => Err(e)
  }

  function TripleOf(e: QueueEntry): Triple {
    Triple(e.playerID, Encode(e.playerID, e.deckID, e.level, e.name), e.joinedAt)
  }

  function TriplesOf(es: seq<QueueEntry>): (ts: seq<Triple>)
    ensures |ts| == |es| && forall i :: 0 <= i < |es| ==> ts[i] == TripleOf(es[i])
  {
    if es == [] then [] else [TripleOf(es[0])] + TriplesOf(es[1..])
  }

  function FirstInvalid(es: seq<QueueEntry>): (r: Option<Error>)
    ensures r == None <==> forall i :: 0 <= i < |es| ==> ValidPlayerID(es[i].playerID)
  {
    if es == [] then None
    else
      match ValidateMemberPlayerID(es[0].playerID)
      case Some(e) => Some(e)
      case None => FirstInvalid(es[1..])
  }

  lemma {:induction false} PutAllSnoc(q: ZSet, ts: seq<Triple>, t: Triple)
    ensures PutAll(q, ts + [t]) == Put(PutAll(q, ts), t.player, t.member, t.score)
    decreases |ts|
  {
    if ts == [] {
      assert ts + [t] == [t];
      assert [t][1..] == [];
    } else {
      assert (ts + [t])[1..] == ts[1..] + [t];
      PutAllSnoc(Put(q, ts[0].player, ts[0].member, ts[0].score), ts[1..], t);
    }
  }
}
