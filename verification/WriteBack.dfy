/** The re-enqueue script on an arbitrary store: what one call guarantees, and why
    repeating it is harmless. */
module WriteBack {
  import opened Bytes
  import opened Member
  import opened SortedSet

  function Players(ts: seq<Triple>): set<Text> {
    set i | 0 <= i < |ts| :: ts[i].player
  }

  /** Each member begins with its player's ID, as encoded members do. */
  predicate Labelled(ts: seq<Triple>) {
    forall i :: 0 <= i < |ts| ==> FirstField(ts[i].member) == ts[i].player
  }

  lemma TriplesLabelled(es: seq<QueueEntry>)
    requires FirstInvalid(es).None?
    ensures Labelled(TriplesOf(es))
  {
    hide Encode, FirstField;
    forall i | 0 <= i < |es| ensures FirstField(TriplesOf(es)[i].member) == TriplesOf(es)[i].player {
      FirstFieldOfEncode(es[i].playerID, es[i].deckID, es[i].level, es[i].name);
    }
  }

  /** The two sets hold the same members of everyone but these players. */
  ghost predicate AgreeOutside(q: ZSet, r: ZSet, players: set<Text>) {
    forall m :: FirstField(m) !in players ==> (m in q <==> m in r) && (m in q && m in r ==> q[m] == r[m])
  }

  lemma PlayersTail(ts: seq<Triple>)
    requires ts != []
    ensures Players(ts) == {ts[0].player} + Players(ts[1..])
  {
    forall p | p in Players(ts) ensures p in {ts[0].player} + Players(ts[1..]) {
      var i :| 0 <= i < |ts| && ts[i].player == p;
      if i > 0 {
        assert ts[1..][i - 1] == ts[i];
      }
    }
    forall p | p in Players(ts[1..]) ensures p in Players(ts) {
      var i :| 0 <= i < |ts[1..]| && ts[1..][i].player == p;
      assert ts[i + 1].player == p;
    }
  }

  lemma PutAgrees(q: ZSet, r: ZSet, t: Triple, rest: set<Text>)
    requires FirstField(t.member) == t.player && AgreeOutside(q, r, {t.player} + rest)
    ensures AgreeOutside(Put(q, t.player, t.member, t.score), Put(r, t.player, t.member, t.score), rest)
  {
    hide FirstField;
  }

  /** The script touches nobody else's entries. */
  lemma {:induction false} PutAllOthers(q: ZSet, ts: seq<Triple>)
    requires Labelled(ts)
    ensures AgreeOutside(PutAll(q, ts), q, Players(ts))
    decreases |ts|
  {
    hide FirstField;
    if ts != [] {
      PlayersTail(ts);
      PutAllOthers(Put(q, ts[0].player, ts[0].member, ts[0].score), ts[1..]);
    }
  }

  /** What it leaves depends on nothing those players had before. */
  lemma {:induction false} PutAllForgets(q: ZSet, r: ZSet, ts: seq<Triple>)
    requires Labelled(ts) && AgreeOutside(q, r, Players(ts))
    ensures PutAll(q, ts) == PutAll(r, ts)
    decreases |ts|
  {
    hide FirstField;
    if ts == [] {
      assert q == r;
    } else {
      hide Put;
      PlayersTail(ts);
      PutAgrees(q, r, ts[0], Players(ts[1..]));
      PutAllForgets(Put(q, ts[0].player, ts[0].member, ts[0].score),
                    Put(r, ts[0].player, ts[0].member, ts[0].score), ts[1..]);
    }
  }

  /** Writing back twice is writing back once, for any entries and any store. */
  lemma ReenqueueIdempotent(s: Store, gateway: Text, es: seq<QueueEntry>)
    requires FirstInvalid(es).None?
    ensures var once := ReenqueueScript(s, gateway, TriplesOf(es));
            ReenqueueScript(once, gateway, TriplesOf(es)) == once
  {
    hide FirstField, PutAll, TriplesOf, AgreeOutside;
    var ts := TriplesOf(es);
    TriplesLabelled(es);
    PutAllOthers(s.queue, ts);
    PutAllForgets(PutAll(s.queue, ts), s.queue, ts);
  }

  /** Any number of applied attempts. */
  function Attempts(s: Store, gateway: Text, es: seq<QueueEntry>, n: nat): Store {
    if n == 0 then s else ReenqueueScript(Attempts(s, gateway, es, n - 1), gateway, TriplesOf(es))
  }

  /** Without interference, one or more applied attempts leave what a single one does. */
  lemma {:induction false} AttemptsCollapse(s: Store, gateway: Text, es: seq<QueueEntry>, n: nat)
    requires FirstInvalid(es).None? && n >= 1
    ensures Attempts(s, gateway, es, n) == ReenqueueScript(s, gateway, TriplesOf(es))
  {
    hide ReenqueueScript, TriplesOf, FirstInvalid;
    if n == 1 {
      assert Attempts(s, gateway, es, 0) == s;
    } else {
      AttemptsCollapse(s, gateway, es, n - 1);
      ReenqueueIdempotent(s, gateway, es);
    }
  }

  /** The entry a player has after a pair was put. */
  predicate HasExactly(q: ZSet, e: QueueEntry) {
    && TripleOf(e).member in q
    && q[TripleOf(e).member] == e.joinedAt
    && forall m :: m in q && FirstField(m) == e.playerID ==> m == TripleOf(e).member
  }

  /** From any store whatever happened before, an attempt that returns true leaves each
      player of the pair with exactly the popped entry at its original score, and every
      other player's entries as they were. */
  lemma TrueMeansRestored(s: Store, gateway: Text, x: QueueEntry, y: QueueEntry)
    requires ValidPlayerID(x.playerID) && ValidPlayerID(y.playerID) && x.playerID != y.playerID
    requires HeldText(s.instance) == gateway
    ensures var after := ReenqueueScript(s, gateway, TriplesOf([x, y]));
            && HasExactly(after.queue, x) && HasExactly(after.queue, y)
            && AgreeOutside(after.queue, s.queue, {x.playerID, y.playerID})
            && after.instance == s.instance
  {
    hide FirstField, Encode;
    var ts := TriplesOf([x, y]);
    TriplesLabelled([x, y]);
    assert ts == [TripleOf(x), TripleOf(y)] && ts[1..] == [TripleOf(y)] && ts[1..][1..] == [];
    assert FirstField(ts[0].member) == x.playerID && FirstField(ts[1].member) == y.playerID;
    var q1 := Put(s.queue, ts[0].player, ts[0].member, ts[0].score);
    var q2 := Put(q1, ts[1].player, ts[1].member, ts[1].score);
    assert PutAll(q2, []) == q2 && PutAll(q1, ts[1..]) == q2 && PutAll(s.queue, ts) == q2;
  }
}
