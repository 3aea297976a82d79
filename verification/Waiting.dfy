/** The plain view of the queue: a map from waiting players to their slots.  The
    string sorted set is a function of it, and every script commutes with a map
    operation. */
module Waiting {
  import opened Bytes
  import opened Member
  import opened SortedSet
  import Decimal

  type Waiting = map<PlayerID, Slot>

  function MemberOf(p: Text, s: Slot): Text {
    Encode(p, s.deckID, s.level, s.name)
  }

  function SlotKey(p: Text, s: Slot): Key {
    Key(s.joinedAt, MemberOf(p, s))
  }

  lemma MemberOfInjective(p: PlayerID, s: Slot, q: PlayerID, t: Slot)
    requires MemberOf(p, s) == MemberOf(q, t)
    ensures p == q && s == t.(joinedAt := s.joinedAt)
  {
    EncodeInjective(Fields(p, s.deckID, s.level, s.name), Fields(q, t.deckID, t.level, t.name));
  }

  lemma FirstFieldOfMember(p: PlayerID, s: Slot)
    ensures FirstField(MemberOf(p, s)) == p
  {
    FirstFieldOfEncode(p, s.deckID, s.level, s.name);
  }

  lemma MembersNamePlayers(w: Waiting)
    ensures forall p :: p in w ==> FirstField(MemberOf(p, w[p])) == p
  {
    hide MemberOf, FirstField;
    forall p | p in w ensures FirstField(MemberOf(p, w[p])) == p {
      FirstFieldOfMember(p, w[p]);
    }
  }

  function Members(w: Waiting): (ms: set<Text>)
    ensures forall p :: p in w ==> MemberOf(p, w[p]) in ms
    ensures forall m :: m in ms ==> FirstField(m) in w && m == MemberOf(FirstField(m), w[FirstField(m)])
  {
    hide MemberOf, FirstField;
    MembersNamePlayers(w);
    set p | p in w :: MemberOf(p, w[p])
  }

  /** The sorted set that stores these players. */
  function Concrete(w: Waiting): (c: ZSet)
    ensures forall p :: p in w ==> MemberOf(p, w[p]) in c && c[MemberOf(p, w[p])] == w[p].joinedAt
    ensures forall m :: m in c ==> FirstField(m) in w && m == MemberOf(FirstField(m), w[FirstField(m)])
  {
    hide MemberOf, FirstField;
    MembersNamePlayers(w);
    map m | m in Members(w) :: w[FirstField(m)].joinedAt
  }

  /** Every stored member is the encoding of the one entry its player has. */
  lemma ConcreteHas(w: Waiting, m: Text)
    requires m in Concrete(w)
    ensures FirstField(m) in w
    ensures m == MemberOf(FirstField(m), w[FirstField(m)])
    ensures Concrete(w)[m] == w[FirstField(m)].joinedAt
  {
    hide Concrete, MemberOf, FirstField;
  }

  /** Two members of a reachable sorted set never belong to the same player. */
  lemma OneEntryPerPlayer(w: Waiting, m: Text, n: Text)
    requires m in Concrete(w) && n in Concrete(w) && FirstField(m) == FirstField(n)
    ensures m == n
  {
    ConcreteHas(w, m);
    ConcreteHas(w, n);
  }

  /** The abstraction is exact: different maps are stored as different sorted sets. */
  lemma ConcreteInjective(w: Waiting, v: Waiting)
    requires Concrete(w) == Concrete(v)
    ensures w == v
  {
    hide Concrete, MemberOf;
    forall p | p in w ensures p in v && v[p] == w[p] {
      ConcreteSubsumes(w, v, p);
    }
    forall p | p in v ensures p in w && v[p] == w[p] {
      ConcreteSubsumes(v, w, p);
    }
  }

  lemma ConcreteSubsumes(w: Waiting, v: Waiting, p: PlayerID)
    requires p in w && Concrete(w) == Concrete(v)
    ensures p in v && v[p] == w[p]
  {
    hide Concrete, MemberOf;
    assert MemberOf(p, w[p]) in Concrete(w);
    FirstFieldOfMember(p, w[p]);
    ConcreteHas(v, MemberOf(p, w[p]));
    MemberOfInjective(p, w[p], p, v[p]);
  }

  function Without(w: Waiting, p: Text): Waiting {
    map k | k in w && k != p :: w[k]
  }

  lemma ConcreteRemove(w: Waiting, p: Text)
    ensures RemovePlayer(Concrete(w), p) == Concrete(Without(w, p))
    ensures !ValidPlayerID(p) ==> RemovePlayer(Concrete(w), p) == Concrete(w)
  {
    hide Concrete, MemberOf, FirstField;
    var c, v := Concrete(w), Without(w, p);
    var d := Concrete(v);
    forall m | m in RemovePlayer(c, p) ensures m in d && d[m] == c[m] {
      ConcreteHas(w, m);
      assert MemberOf(FirstField(m), v[FirstField(m)]) in Concrete(v);
    }
    forall m | m in d ensures m in RemovePlayer(c, p) {
      ConcreteHas(v, m);
      assert MemberOf(FirstField(m), w[FirstField(m)]) in Concrete(w);
    }
    assert !ValidPlayerID(p) ==> v == w;
  }

  lemma ConcreteInsert(w: Waiting, p: PlayerID, s: Slot)
    requires p !in w
    ensures MemberOf(p, s) !in Concrete(w)
    ensures Concrete(w)[MemberOf(p, s) := s.joinedAt] == Concrete(w[p := s])
  {
    hide Concrete, MemberOf, FirstField;
    var v := w[p := s];
    var c, d, m0 := Concrete(w)[MemberOf(p, s) := s.joinedAt], Concrete(v), MemberOf(p, s);
    FirstFieldOfMember(p, s);
    assert MemberOf(p, v[p]) in Concrete(v);
    if m0 in Concrete(w) {
      ConcreteHas(w, m0);
    }
    forall m | m in c ensures m in d && d[m] == c[m] {
      if m != m0 {
        ConcreteHas(w, m);
        assert MemberOf(FirstField(m), v[FirstField(m)]) in Concrete(v);
      }
    }
    forall m | m in d ensures m in c {
      ConcreteHas(v, m);
      if FirstField(m) != p {
        assert MemberOf(FirstField(m), w[FirstField(m)]) in Concrete(w);
      }
    }
  }

  /** Replacing a player's entry in the sorted set is a map update. */
  lemma ConcretePut(w: Waiting, p: PlayerID, s: Slot)
    ensures Put(Concrete(w), p, MemberOf(p, s), s.joinedAt) == Concrete(w[p := s])
  {
    hide Concrete, MemberOf, RemovePlayer;
    ConcreteRemove(w, p);
    ConcreteInsert(Without(w, p), p, s);
    assert Without(w, p)[p := s] == w[p := s];
  }

  lemma InsertSize(q: ZSet, m: Text, score: Millis)
    requires m !in q
    ensures |q[m := score]| == |q| + 1
  {
    assert q[m := score].Keys == q.Keys + {m};
  }

  /** ZCARD is the number of distinct waiting players. */
  lemma {:induction false} ConcreteSize(w: Waiting)
    ensures |Concrete(w)| == |w|
    decreases |w|
  {
    hide Concrete, MemberOf;
    if w == map[] {
      assert Concrete(w) == map[];
    } else {
      var p :| p in w;
      var v := Without(w, p);
      assert v.Keys == w.Keys - {p};
      ConcreteSize(v);
      ConcreteInsert(v, p, w[p]);
      assert v[p := w[p]] == w;
      InsertSize(Concrete(v), MemberOf(p, w[p]), w[p].joinedAt);
    }
  }

  // ------------------------------------------------------------------ pops

  /** The player whose (joinedAt, member) key is least. */
  predicate IsFront(w: Waiting, p: PlayerID) {
    p in w && forall q :: q in w && q != p ==> Before(SlotKey(p, w[p]), SlotKey(q, w[q]))
  }

  lemma ConcreteFront(w: Waiting, p: PlayerID)
    requires IsFront(w, p)
    ensures IsLeast(Concrete(w), MemberOf(p, w[p]))
  {
    hide Concrete, MemberOf, FirstField, Before;
    var c := Concrete(w);
    assert MemberOf(p, w[p]) in Concrete(w);
    forall n | n in c && n != MemberOf(p, w[p])
      ensures Before(KeyIn(c, MemberOf(p, w[p])), KeyIn(c, n))
    {
      ConcreteHas(w, n);
    }
  }

  lemma FrontExists(w: Waiting)
    requires w != map[]
    ensures exists p :: IsFront(w, p)
  {
    hide Concrete, MemberOf, FirstField, Before;
    var c := Concrete(w);
    var p0 :| p0 in w;
    assert MemberOf(p0, w[p0]) in Concrete(w);
    var m := Least(c);
    ConcreteHas(w, m);
    var p: PlayerID := FirstField(m);
    forall q | q in w && q != p ensures Before(SlotKey(p, w[p]), SlotKey(q, w[q])) {
      assert MemberOf(q, w[q]) in Concrete(w);
      if MemberOf(q, w[q]) == m {
        FirstFieldOfMember(q, w[q]);
      }
    }
    assert IsFront(w, p);
  }

  lemma FrontUnique(w: Waiting, p: PlayerID, q: PlayerID)
    requires IsFront(w, p) && IsFront(w, q)
    ensures p == q
  {
    hide Concrete, MemberOf, Before;
    if p != q {
      BeforeAsymmetric(SlotKey(p, w[p]), SlotKey(q, w[q]));
    }
  }

  ghost function Front(w: Waiting): (p: PlayerID)
    requires w != map[]
    ensures p in w && IsFront(w, p)
  {
    FrontExists(w);
    var p :| IsFront(w, p);
    p
  }

  lemma WithoutSize(w: Waiting, p: PlayerID)
    requires p in w
    ensures |Without(w, p)| == |w| - 1
    ensures |w| >= 2 ==> Without(w, p) != map[]
  {
    assert Without(w, p).Keys == w.Keys - {p};
  }

  ghost function Second(w: Waiting): (p: PlayerID)
    requires |w| >= 2
    ensures p in w && p != Front(w)
    ensures IsFront(Without(w, Front(w)), p)
  {
    WithoutSize(w, Front(w));
    Front(Without(w, Front(w)))
  }

  lemma ConcreteErase(w: Waiting, p: PlayerID)
    requires p in w
    ensures Concrete(w) - {MemberOf(p, w[p])} == Concrete(Without(w, p))
  {
    hide Concrete, MemberOf, FirstField;
    var c, d := Concrete(w), Concrete(Without(w, p));
    ConcreteRemove(w, p);
    FirstFieldOfMember(p, w[p]);
    forall m | m in c && m != MemberOf(p, w[p]) ensures FirstField(m) != p {
      ConcreteHas(w, m);
    }
    assert Concrete(w) - {MemberOf(p, w[p])} == RemovePlayer(c, p);
  }

  /** The pop script removes exactly the two front players. */
  lemma ConcretePop(w: Waiting, instance: Option<Text>)
    requires |w| >= 2
    ensures var a, b := Front(w), Second(w);
            && PopScript(Store(Concrete(w), instance)).after == Store(Concrete(Without(Without(w, a), b)), instance)
            && PopScript(Store(Concrete(w), instance)).values
               == Reply(HeldText(instance),
                        [MemberOf(a, w[a]), Decimal.FormatInt(w[a].joinedAt),
                         MemberOf(b, w[b]), Decimal.FormatInt(w[b].joinedAt)])
  {
    hide Concrete, MemberOf, FirstField, Decimal.FormatInt, PopScript, IsLeast, IsFront;
    var a, b := Front(w), Second(w);
    var v := Without(w, a);
    ConcreteSize(w);
    ConcreteFront(w, a);
    ConcreteErase(w, a);
    ConcreteFront(v, b);
    ConcreteErase(v, b);
    assert MemberOf(a, w[a]) in Concrete(w);
    assert MemberOf(b, w[b]) in Concrete(w);
    PopScriptOf(Store(Concrete(w), instance), MemberOf(a, w[a]), MemberOf(b, w[b]));
  }

  lemma DecodeStored(p: PlayerID, s: Slot)
    ensures DecodeOne(MemberOf(p, s), Decimal.FormatInt(s.joinedAt)) == Ok(EntryOf(p, s))
  {
    hide Encode, Decode, Decimal.FormatInt, Decimal.ParseInt;
    RoundTrip(p, s.deckID, s.level, s.name);
    Decimal.ParseFormat(s.joinedAt);
  }

  lemma DecodeTwo(raw: seq<Text>, x: QueueEntry, y: QueueEntry)
    requires |raw| == 4 && DecodeOne(raw[0], raw[1]) == Ok(x) && DecodeOne(raw[2], raw[3]) == Ok(y)
    ensures Paired(raw) && DecodeValues(raw) == Ok([x, y])
  {
    hide DecodeOne;
    PairedFour(raw);
    assert raw[2..][0] == raw[2] && raw[2..][1] == raw[3] && raw[2..][2..] == [];
    assert DecodeValues(raw[2..][2..]) == Ok([]);
    assert [y] + [] == [y] && [x] + [y] == [x, y];
    assert DecodeValues(raw[2..]) == Ok([y]);
  }

  /** On every queue the scripts can build, a pop whose script ran decodes: it gives
      no entry, or the two front players in order, each with the slot and the score
      it was stored with.  Decoding never loses a pair, and a player is never paired
      with themself. */
  lemma PopNeverFails(w: Waiting, instance: Option<Text>)
    ensures |w| < 2 ==>
              && PopResult(Store(Concrete(w), instance)) == Ok(Popped([], []))
              && PopScript(Store(Concrete(w), instance)).after == Store(Concrete(w), instance)
    ensures |w| >= 2 ==>
              var a, b := Front(w), Second(w);
              && PopResult(Store(Concrete(w), instance))
                 == Ok(Popped([EntryOf(a, w[a]), EntryOf(b, w[b])], HeldText(instance)))
              && PopScript(Store(Concrete(w), instance)).after
                 == Store(Concrete(Without(Without(w, a), b)), instance)
              && a != b
  {
    hide Concrete, MemberOf, FirstField, Decimal.FormatInt, DecodeOne, IsFront;
    var s := Store(Concrete(w), instance);
    ConcreteSize(w);
    if |w| < 2 {
      PopScriptNone(s);
    } else {
      hide PopScript;
      var a, b := Front(w), Second(w);
      ConcretePop(w, instance);
      DecodeStored(a, w[a]);
      DecodeStored(b, w[b]);
      DecodeTwo(PopScript(s).values[1..], EntryOf(a, w[a]), EntryOf(b, w[b]));
    }
  }

  /** Every other waiting player comes after both popped ones. */
  lemma PopTakesLeast(w: Waiting, q: PlayerID)
    requires |w| >= 2 && q in w && q != Front(w) && q != Second(w)
    ensures Before(SlotKey(Front(w), w[Front(w)]), SlotKey(Second(w), w[Second(w)]))
    ensures Before(SlotKey(Second(w), w[Second(w)]), SlotKey(q, w[q]))
  {
    hide Concrete, MemberOf, Before;
    assert q in Without(w, Front(w));
  }

  // ------------------------------------------------------------ write-back

  lemma ConcretePutPair(w: Waiting, x: QueueEntry, y: QueueEntry)
    requires ValidPlayerID(x.playerID) && ValidPlayerID(y.playerID)
    ensures PutAll(Concrete(w), TriplesOf([x, y]))
         == Concrete(w[x.playerID := SlotOf(x)][y.playerID := SlotOf(y)])
  {
    hide Encode, Put;
    var ts := TriplesOf([x, y]);
    assert ts == [TripleOf(x), TripleOf(y)];
    assert ts[1..] == [TripleOf(y)] && ts[1..][1..] == [];
    ConcretePut(w, x.playerID, SlotOf(x));
    ConcretePut(w[x.playerID := SlotOf(x)], y.playerID, SlotOf(y));
    var q1 := Put(Concrete(w), ts[0].player, ts[0].member, ts[0].score);
    var q2 := Put(q1, ts[1].player, ts[1].member, ts[1].score);
    assert PutAll(q2, []) == q2;
    assert PutAll(q1, ts[1..]) == q2;
  }

  lemma ConcretePutSlots(w: Waiting, a: PlayerID, sa: Slot, b: PlayerID, sb: Slot)
    ensures PutAll(Concrete(w), TriplesOf([EntryOf(a, sa), EntryOf(b, sb)])) == Concrete(w[a := sa][b := sb])
  {
    hide Concrete, MemberOf, TriplesOf, PutAll;
    ConcretePutPair(w, EntryOf(a, sa), EntryOf(b, sb));
  }

  /** Popping a pair and writing it back restores the sorted set exactly, members
      and scores. */
  lemma PopWriteBackIdentity(w: Waiting, instance: Option<Text>)
    requires |w| >= 2
    ensures var s := Store(Concrete(w), instance);
            && PopResult(s).Ok?
            && ReenqueueScript(PopScript(s).after, PopResult(s).value.gateway,
                TriplesOf(PopResult(s).value.entries)) == s
  {
    hide Concrete, MemberOf, FirstField, PopScript, PopResult, IsFront, TriplesOf, PutAll;
    var a, b := Front(w), Second(w);
    PopNeverFails(w, instance);
    ConcretePutSlots(Without(Without(w, a), b), a, w[a], b, w[b]);
    assert Without(Without(w, a), b)[a := w[a]][b := w[b]] == w;
  }

  lemma FrontPair(w: Waiting, a: PlayerID, b: PlayerID)
    requires a in w && b in w && a != b
    requires Before(SlotKey(a, w[a]), SlotKey(b, w[b]))
    requires forall q :: q in w && q != a && q != b ==> Before(SlotKey(b, w[b]), SlotKey(q, w[q]))
    ensures |w| >= 2 && Front(w) == a && Second(w) == b
  {
    hide Concrete, MemberOf, Before;
    assert w.Keys == {a, b} + (w.Keys - {a, b});
    forall q | q in w && q != a ensures Before(SlotKey(a, w[a]), SlotKey(q, w[q])) {
      if q != b {
        BeforeTransitive(SlotKey(a, w[a]), SlotKey(b, w[b]), SlotKey(q, w[q]));
      }
    }
    FrontUnique(w, a, Front(w));
    FrontUnique(Without(w, a), b, Second(w));
  }

  lemma PairInFront(v: Waiting, a: PlayerID, b: PlayerID, sa: Slot, sb: Slot)
    requires a != b && a !in v && b !in v
    requires Before(SlotKey(a, sa), SlotKey(b, sb))
    requires forall q :: q in v ==> Before(SlotKey(b, sb), SlotKey(q, v[q]))
    ensures var w := v[a := sa][b := sb];
            && w[a] == sa && w[b] == sb
            && |w| >= 2 && Front(w) == a && Second(w) == b
            && Without(Without(w, a), b) == v
  {
    hide MemberOf, Before;
    var w := v[a := sa][b := sb];
    FrontPair(w, a, b);
  }

  /** Writing a pair back in front of later entries makes the next pop return the
      same pair in the same order. */
  lemma WriteBackThenPop(v: Waiting, a: PlayerID, b: PlayerID, sa: Slot, sb: Slot, instance: Option<Text>)
    requires a != b && a !in v && b !in v
    requires Before(SlotKey(a, sa), SlotKey(b, sb))
    requires forall q :: q in v ==> Before(SlotKey(b, sb), SlotKey(q, v[q]))
    ensures var back := ReenqueueScript(Store(Concrete(v), instance), HeldText(instance),
                                        TriplesOf([EntryOf(a, sa), EntryOf(b, sb)]));
            && PopResult(back) == Ok(Popped([EntryOf(a, sa), EntryOf(b, sb)], HeldText(instance)))
            && PopScript(back).after == Store(Concrete(v), instance)
  {
    hide Concrete, MemberOf, Before, PopScript, PopResult, IsFront, TriplesOf, PutAll, EntryOf, Front, Second, Without;
    ConcretePutSlots(v, a, sa, b, sb);
    PairInFront(v, a, b, sa, sb);
    PopNeverFails(v[a := sa][b := sb], instance);
  }
}
