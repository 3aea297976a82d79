/** Queue entries and their text form as sorted-set members,
    `playerID:deckID:level:base64(name)`. */
module Member {
  import opened Bytes
  import Decimal
  import Base64

  /** A player ID that may be stored: not empty and free of colons. */
  type PlayerID = p: Text | ValidPlayerID(p) witness [97]

  predicate ValidPlayerID(p: Text) { p != [] && COLON !in p }

  datatype QueueEntry =
    QueueEntry(playerID: Text, deckID: Int64, name: Text, level: Int64, joinedAt: Millis)

  /** What the queue keeps about a waiting player. */
  datatype Slot = Slot(deckID: Int64, level: Int64, name: Text, joinedAt: Millis)

  function EntryOf(p: Text, s: Slot): QueueEntry {
    QueueEntry(p, s.deckID, s.name, s.level, s.joinedAt)
  }

  function SlotOf(e: QueueEntry): Slot {
    Slot(e.deckID, e.level, e.name, e.joinedAt)
  }

  datatype Error =
    | PlayerIDEmpty
    | PlayerIDHasColon
    | GatewayEmpty
    | FieldCount
    | BadDeck
    | BadLevel
    | BadName
    | BadScore
    | Transport

  datatype Result<+T> = Ok(value: T) | Err(error: Error)

  function ValidateMemberPlayerID(p: Text): (r: Option<Error>)
    ensures r == None <==> ValidPlayerID(p)
  {
    if p == [] then Some(PlayerIDEmpty)
    else if COLON in p then Some(PlayerIDHasColon)
    else None
  }

  const FIELD_COUNT: nat := 4

  /** Fields joined by the separator. */
  function Join(fields: seq<Text>): Text
    requires fields != []
  {
    if |fields| == 1 then fields[0] else fields[0] + [COLON] + Join(fields[1..])
  }

  /** Splitting undoes joining when only the last field may hold a separator. */
  lemma {:induction false} SplitJoin(fields: seq<Text>)
    requires fields != []
    requires forall i :: 0 <= i < |fields| - 1 ==> COLON !in fields[i]
    ensures SplitN(Join(fields), |fields|) == fields
  {
    if |fields| > 1 {
      SplitJoin(fields[1..]);
      SplitNCons(fields[0], Join(fields[1..]), |fields|);
    }
  }

  lemma JoinCons(f: Text, fields: seq<Text>)
    requires fields != []
    ensures Join([f] + fields) == f + [COLON] + Join(fields)
  {
    assert ([f] + fields)[1..] == fields;
  }

  /** Joining undoes splitting. */
  lemma {:induction false} JoinSplit(m: Text, n: nat)
    requires n >= 1
    ensures Join(SplitN(m, n)) == m
    decreases n
  {
    if n > 1 && COLON in m {
      SplitNHead(m, n);
      JoinSplit(AfterFirst(m), n - 1);
      JoinCons(FirstField(m), SplitN(AfterFirst(m), n - 1));
    }
  }

  function Encode(p: Text, deckID: Int64, level: Int64, name: Text): Text {
    p + [COLON] + Decimal.FormatInt(deckID) + [COLON] + Decimal.FormatInt(level) + [COLON] + Base64.Encode(name)
  }

  lemma EncodeJoins(p: Text, deckID: Int64, level: Int64, name: Text)
    ensures Encode(p, deckID, level, name)
         == Join([p, Decimal.FormatInt(deckID), Decimal.FormatInt(level), Base64.Encode(name)])
  {
    hide Decimal.FormatInt, Base64.Encode;
    var d, l, n := Decimal.FormatInt(deckID), Decimal.FormatInt(level), Base64.Encode(name);
    JoinCons(p, [d, l, n]);
    JoinCons(d, [l, n]);
    JoinCons(l, [n]);
    assert [p] + [d, l, n] == [p, d, l, n] && [d] + [l, n] == [d, l, n] && [l] + [n] == [l, n];
    assert p + [COLON] + d + [COLON] + l + [COLON] + n == p + [COLON] + (d + [COLON] + (l + [COLON] + n));
  }

  datatype Fields = Fields(playerID: Text, deckID: Int64, level: Int64, name: Text)

  lemma FirstPart(m: Text, n: nat)
    requires n >= 2 && |SplitN(m, n)| >= 2
    ensures COLON !in SplitN(m, n)[0]
  {
    SplitNHead(m, n);
  }

  function Decode(m: Text): (r: Result<Fields>)
    ensures r.Ok? ==> COLON !in r.value.playerID
  {
    var parts := SplitN(m, FIELD_COUNT);
    if |parts| != FIELD_COUNT then Err(FieldCount)
    else
      match (Decimal.ParseInt(parts[1]), Decimal.ParseInt(parts[2]), Base64.Decode(parts[3]))
      case (None, _, _) => Err(BadDeck)
      case (_, None, _) => Err(BadLevel)
      case (_, _, None) => Err(BadName)
      case (Some(deck), Some(level), Some(name)) =>
        FirstPart(m, FIELD_COUNT);
        Ok(Fields(parts[0], deck, level, name))
  }

  lemma EncodedParts(p: Text, deckID: Int64, level: Int64, name: Text)
    requires COLON !in p
    ensures SplitN(Encode(p, deckID, level, name), FIELD_COUNT)
         == [p, Decimal.FormatInt(deckID), Decimal.FormatInt(level), Base64.Encode(name)]
  {
    hide Decimal.FormatInt, Base64.Encode;
    EncodeJoins(p, deckID, level, name);
    Decimal.ParseFormat(deckID);
    Decimal.ParseFormat(level);
    SplitJoin([p, Decimal.FormatInt(deckID), Decimal.FormatInt(level), Base64.Encode(name)]);
  }

  /** Decoding undoes encoding, for every colon-free player ID, every pair of
      64-bit integers and every name. */
  lemma RoundTrip(p: Text, deckID: Int64, level: Int64, name: Text)
    requires COLON !in p
    ensures Decode(Encode(p, deckID, level, name)) == Ok(Fields(p, deckID, level, name))
  {
    EncodedParts(p, deckID, level, name);
    Decimal.ParseFormat(deckID);
    Decimal.ParseFormat(level);
    Base64.DecodeEncode(name);
  }

  /** The Lua helper reads the player ID back from an encoded member. */
  lemma FirstFieldOfEncode(p: Text, deckID: Int64, level: Int64, name: Text)
    requires COLON !in p
    ensures FirstField(Encode(p, deckID, level, name)) == p
  {
    hide Decimal.FormatInt, Base64.Encode;
    var d, l, n := Decimal.FormatInt(deckID), Decimal.FormatInt(level), Base64.Encode(name);
    FirstFieldOf(p, d + [COLON] + l + [COLON] + n);
    assert Encode(p, deckID, level, name) == p + [COLON] + (d + [COLON] + l + [COLON] + n);
  }

  /** Different players or different summaries never share a member. */
  lemma EncodeInjective(x: Fields, y: Fields)
    requires COLON !in x.playerID && COLON !in y.playerID
    requires Encode(x.playerID, x.deckID, x.level, x.name) == Encode(y.playerID, y.deckID, y.level, y.name)
    ensures x == y
  {
    RoundTrip(x.playerID, x.deckID, x.level, x.name);
    RoundTrip(y.playerID, y.deckID, y.level, y.name);
  }

  /** A member whose number and name fields are in the form the encoder writes. */
  predicate Canonical(m: Text) {
    var parts := SplitN(m, FIELD_COUNT);
    && |parts| == FIELD_COUNT
    && Decimal.Canonical(parts[1])
    && Decimal.Canonical(parts[2])
    && Base64.Canonical(parts[3])
  }

  /** Re-encoding a decoded member gives the member back exactly when the member
      is canonical; other decodable members (a plus sign, a leading zero, a line
      break or spare bits in the name) collapse onto a different one. */
  lemma ReencodeIffCanonical(m: Text)
    requires Decode(m).Ok?
    ensures var x := Decode(m).value;
            Encode(x.playerID, x.deckID, x.level, x.name) == m <==> Canonical(m)
  {
    var x := Decode(m).value;
    if Canonical(m) {
      CanonicalReencodes(m);
    }
    if Encode(x.playerID, x.deckID, x.level, x.name) == m {
      EncodeIsCanonical(x);
    }
  }

  lemma CanonicalReencodes(m: Text)
    requires Decode(m).Ok? && Canonical(m)
    ensures var x := Decode(m).value; Encode(x.playerID, x.deckID, x.level, x.name) == m
  {
    hide SplitN, Join, Encode, Decimal.FormatInt, Decimal.ParseInt, Decimal.Canonical,
         Base64.Encode, Base64.Decode, Base64.Canonical;
    var q, x := SplitN(m, FIELD_COUNT), Decode(m).value;
    Decimal.FormatParse(q[1]);
    Decimal.FormatParse(q[2]);
    Base64.EncodeDecode(q[3]);
    JoinSplit(m, FIELD_COUNT);
    EncodeJoins(x.playerID, x.deckID, x.level, x.name);
    assert q == [x.playerID, Decimal.FormatInt(x.deckID), Decimal.FormatInt(x.level), Base64.Encode(x.name)];
  }

  lemma EncodeIsCanonical(x: Fields)
    requires COLON !in x.playerID
    ensures Canonical(Encode(x.playerID, x.deckID, x.level, x.name))
  {
    EncodedParts(x.playerID, x.deckID, x.level, x.name);
    Decimal.FormatIsCanonical(x.deckID);
    Decimal.FormatIsCanonical(x.level);
    Base64.DecodeEncode(x.name);
    Base64.EncodeDecode(Base64.Encode(x.name));
  }

  /** The condition is needed: `a:+1:1:` decodes, but is never written. */
  lemma NonCanonicalExists()
    ensures exists m :: Decode(m).Ok? && !Canonical(m)
  {
    var fields: seq<Text> := [[97], [PLUS, 49], [49], []];
    SplitJoin(fields);
    Decimal.ParsePlusOne();
    assert Decode(Join(fields)).Ok?;
  }

  // ann, Al:x and the member ann:12:-3:QWw6eA that they make
  const ANN: Text := [97, 110, 110]
  const NAME: Text := [65, 108, 58, 120]
  const MEMBER: Text := [97, 110, 110, 58, 49, 50, 58, 45, 51, 58, 81, 87, 119, 54, 101, 65]

  /** A whole member, letter by letter. */
  lemma MemberReads()
    ensures Encode(ANN, 12, -3, NAME) == MEMBER
  {
    hide Base64.Encode, Decimal.FormatInt;
    NumbersRead();
    NameReads();
  }

  lemma NumbersRead()
    ensures Decimal.FormatInt(12) == [49, 50] && Decimal.FormatInt(-3) == [45, 51]
  {
    assert Decimal.Digits(1) == [49] && Decimal.Digits(3) == [51];
  }

  lemma NameReads()
    ensures Base64.Encode(NAME) == [81, 87, 119, 54, 101, 65]
  {
    hide Base64.Encode, Base64.Symbols, Base64.Cut;
    assert NAME[3..] == [120];
    SextetsRead();
    SymbolsRead();
    EncodeFour(NAME);
    EncodeOne(NAME[3..]);
    assert [81, 87, 119, 54] + [101, 65] == [81, 87, 119, 54, 101, 65];
  }

  lemma EncodeFour(s: Text)
    requires |s| == 4
    ensures Base64.Encode(s) == Base64.Symbols(Base64.Cut(s[0], s[1], s[2])) + Base64.Encode(s[3..])
  {
    hide Base64.Symbols, Base64.Cut;
  }

  lemma EncodeOne(s: Text)
    requires |s| == 1
    ensures Base64.Encode(s) == Base64.Symbols(Base64.Cut(s[0], 0, 0))[..2]
  {
    hide Base64.Symbols, Base64.Cut;
  }

  lemma SextetsRead()
    ensures Base64.Cut(65, 108, 58) == (16, 22, 48, 58) && Base64.Cut(120, 0, 0) == (30, 0, 0, 0)
  {
  }

  lemma SymbolsRead()
    ensures Base64.Symbols((16, 22, 48, 58)) == [81, 87, 119, 54]
    ensures Base64.Symbols((30, 0, 0, 0))[..2] == [101, 65]
  {
  }
}
