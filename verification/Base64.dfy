/** Base64 without padding, section 4 of RFC 4648 with the padding left out as
    section 3.2 allows.  Decoding follows Go's `base64.RawStdEncoding`: carriage
    returns and line feeds are skipped, and the unused low bits of a final short
    group are ignored. */
module Base64 {
  import opened Bytes

  type Sextet = x: int | 0 <= x < 64

  function Symbol(v: Sextet): (c: Byte)
    ensures c != COLON && c != 10 && c != 13
  {
    if v < 26 then 65 + v
    else if v < 52 then 97 + (v - 26)
    else if v < 62 then 48 + (v - 52)
    else if v == 62 then 43
    else 47
  }

  /** Table 1 of RFC 4648, section 4: A to Z, a to z, 0 to 9, plus and slash. */
  lemma AlphabetIs()
    ensures Symbol(0) == 'A' as int && Symbol(25) == 'Z' as int && Symbol(26) == 'a' as int && Symbol(51) == 'z' as int
    ensures Symbol(52) == '0' as int && Symbol(61) == '9' as int && Symbol(62) == '+' as int && Symbol(63) == '/' as int
    ensures forall v: Sextet :: v < 62 && v !in {25, 51, 61} ==> Symbol(v + 1) == Symbol(v) + 1
  {
  }

  predicate InAlphabet(c: Byte) {
    65 <= c <= 90 || 97 <= c <= 122 || 48 <= c <= 57 || c == 43 || c == 47
  }

  function SymbolValue(c: Byte): (v: Sextet)
    requires InAlphabet(c)
    ensures Symbol(v) == c
  {
    if 65 <= c <= 90 then c - 65
    else if 97 <= c <= 122 then c - 97 + 26
    else if 48 <= c <= 57 then c - 48 + 52
    else if c == 43 then 62
    else 63
  }

  lemma ValueOfSymbol(v: Sextet)
    ensures InAlphabet(Symbol(v)) && SymbolValue(Symbol(v)) == v
  {
  }

  /** Three bytes cut into four sextets, and four sextets put together again. */
  function Cut(a: Byte, b: Byte, c: Byte): (Sextet, Sextet, Sextet, Sextet) {
    (a / 4, a % 4 * 16 + b / 16, b % 16 * 4 + c / 64, c % 64)
  }

  function Paste(w: Sextet, x: Sextet, y: Sextet, z: Sextet): (Byte, Byte, Byte) {
    (w * 4 + x / 16, x % 16 * 16 + y / 4, y % 4 * 64 + z)
  }

  lemma DivMod4(q: nat, r: nat)
    requires r < 4
    ensures (q * 4 + r) / 4 == q && (q * 4 + r) % 4 == r
  {
  }

  lemma DivMod16(q: nat, r: nat)
    requires r < 16
    ensures (q * 16 + r) / 16 == q && (q * 16 + r) % 16 == r
  {
  }

  lemma DivMod64(q: nat, r: nat)
    requires r < 64
    ensures (q * 64 + r) / 64 == q && (q * 64 + r) % 64 == r
  {
  }

  lemma PasteCut(a: Byte, b: Byte, c: Byte)
    ensures var g := Cut(a, b, c); Paste(g.0, g.1, g.2, g.3) == (a, b, c)
  {
    DivMod16(a % 4, b / 16);
    DivMod4(b % 16, c / 64);
  }

  lemma CutPaste(w: Sextet, x: Sextet, y: Sextet, z: Sextet)
    ensures var g := Paste(w, x, y, z); Cut(g.0, g.1, g.2) == (w, x, y, z)
  {
    DivMod4(w, x / 16);
    DivMod16(x % 16, y / 4);
    DivMod64(y % 4, z);
  }

  function Symbols(g: (Sextet, Sextet, Sextet, Sextet)): (t: Text)
    ensures |t| == 4 && forall i :: 0 <= i < 4 ==> InAlphabet(t[i])
  {
    [Symbol(g.0), Symbol(g.1), Symbol(g.2), Symbol(g.3)]
  }

  /** A short final group is cut as if zero bytes followed, and shortened. */
  function Encode(s: Text): (t: Text)
    ensures forall i :: 0 <= i < |t| ==> InAlphabet(t[i])
    decreases |s|
  {
    if s == [] then []
    else if |s| == 1 then Symbols(Cut(s[0], 0, 0))[..2]
    else if |s| == 2 then Symbols(Cut(s[0], s[1], 0))[..3]
    else Symbols(Cut(s[0], s[1], s[2])) + Encode(s[3..])
  }

  predicate IsNewline(c: Byte) { c == 10 || c == 13 }

  function Strip(t: Text): (r: Text)
    ensures forall i :: 0 <= i < |r| ==> !IsNewline(r[i])
    ensures (forall i :: 0 <= i < |t| ==> !IsNewline(t[i])) ==> r == t
    ensures r == t ==> (forall i :: 0 <= i < |t| ==> !IsNewline(t[i]))
    ensures |r| <= |t|
  {
    if t == [] then []
    else if IsNewline(t[0]) then Strip(t[1..])
    else [t[0]] + Strip(t[1..])
  }

  predicate AllInAlphabet(t: Text) {
    forall i :: 0 <= i < |t| ==> InAlphabet(t[i])
  }

  /** Groups of four symbols; a final short group has two or three. */
  predicate WholeGroups(t: Text)
    decreases |t|
  {
    if |t| < 4 then |t| != 1 else WholeGroups(t[4..])
  }

  function DecodeGroups(t: Text): (r: Text)
    requires AllInAlphabet(t) && WholeGroups(t)
    decreases |t|
  {
    if t == [] then []
    else
      var w, x := SymbolValue(t[0]), SymbolValue(t[1]);
      if |t| == 2 then [Paste(w, x, 0, 0).0]
      else
        var y := SymbolValue(t[2]);
        if |t| == 3 then [Paste(w, x, y, 0).0, Paste(w, x, y, 0).1]
        else
          var g := Paste(w, x, y, SymbolValue(t[3]));
          [g.0, g.1, g.2] + DecodeGroups(t[4..])
  }

  function Decode(t: Text): (r: Option<Text>)
    ensures t == [] ==> r == Some([])
  {
    var u := Strip(t);
    if !AllInAlphabet(u) || !WholeGroups(u) then None else Some(DecodeGroups(u))
  }

  lemma DecodeFullGroup(g: (Sextet, Sextet, Sextet, Sextet), rest: Text)
    requires AllInAlphabet(rest) && WholeGroups(rest)
    ensures var t := Symbols(g) + rest;
            var p := Paste(g.0, g.1, g.2, g.3);
            && AllInAlphabet(t) && WholeGroups(t)
            && DecodeGroups(t) == [p.0, p.1, p.2] + DecodeGroups(rest)
  {
    var t := Symbols(g) + rest;
    ValueOfSymbol(g.0);
    ValueOfSymbol(g.1);
    ValueOfSymbol(g.2);
    ValueOfSymbol(g.3);
    assert t[4..] == rest;
  }

  lemma DecodeTwoSymbols(w: Sextet, x: Sextet)
    ensures var t := [Symbol(w), Symbol(x)];
            AllInAlphabet(t) && DecodeGroups(t) == [Paste(w, x, 0, 0).0]
  {
    ValueOfSymbol(w);
    ValueOfSymbol(x);
  }

  lemma DecodeThreeSymbols(w: Sextet, x: Sextet, y: Sextet)
    ensures var t := [Symbol(w), Symbol(x), Symbol(y)];
            && AllInAlphabet(t)
            && DecodeGroups(t) == [Paste(w, x, y, 0).0, Paste(w, x, y, 0).1]
  {
    ValueOfSymbol(w);
    ValueOfSymbol(x);
    ValueOfSymbol(y);
  }

  lemma PasteCutShort(a: Byte, b: Byte)
    ensures var g := Cut(a, b, 0);
            Paste(g.0, g.1, 0, 0).0 == a && Paste(g.0, g.1, g.2, 0).0 == a && Paste(g.0, g.1, g.2, 0).1 == b
  {
    DivMod16(a % 4, b / 16);
    DivMod4(b % 16, 0);
  }

  lemma DecodeGroupsEncodeOne(a: Byte)
    ensures WholeGroups(Encode([a])) && DecodeGroups(Encode([a])) == [a]
  {
    var g := Cut(a, 0, 0);
    assert Encode([a]) == [Symbol(g.0), Symbol(g.1)];
    DecodeTwoSymbols(g.0, g.1);
    PasteCutShort(a, 0);
  }

  lemma DecodeGroupsEncodeTwo(a: Byte, b: Byte)
    ensures WholeGroups(Encode([a, b])) && DecodeGroups(Encode([a, b])) == [a, b]
  {
    var g := Cut(a, b, 0);
    assert Encode([a, b]) == [Symbol(g.0), Symbol(g.1), Symbol(g.2)];
    DecodeThreeSymbols(g.0, g.1, g.2);
    PasteCutShort(a, b);
  }

  lemma {:induction false} DecodeGroupsEncode(s: Text)
    ensures WholeGroups(Encode(s)) && DecodeGroups(Encode(s)) == s
    decreases |s|
  {
    if |s| == 0 {
      assert Encode([]) == [];
    } else if |s| == 1 {
      DecodeGroupsEncodeOne(s[0]);
      assert s == [s[0]];
    } else if |s| == 2 {
      DecodeGroupsEncodeTwo(s[0], s[1]);
      assert s == [s[0], s[1]];
    } else {
      DecodeGroupsEncode(s[3..]);
      PasteCut(s[0], s[1], s[2]);
      DecodeFullGroup(Cut(s[0], s[1], s[2]), Encode(s[3..]));
      assert s == [s[0], s[1], s[2]] + s[3..];
    }
  }

  /** For every byte string: encoding then decoding is the identity. */
  lemma DecodeEncode(s: Text)
    ensures Decode(Encode(s)) == Some(s)
    ensures COLON !in Encode(s)
  {
    DecodeGroupsEncode(s);
  }

  /** The low bits that a short final group does not use. */
  function SpareBits(t: Text): int
    requires AllInAlphabet(t)
    decreases |t|
  {
    if |t| >= 4 then SpareBits(t[4..])
    else if |t| == 3 then SymbolValue(t[2]) % 4
    else if |t| == 2 then SymbolValue(t[1]) % 16
    else 0
  }

  /** Text that the encoder can produce. */
  predicate Canonical(t: Text) {
    AllInAlphabet(t) && WholeGroups(t) && SpareBits(t) == 0
  }

  lemma EncodeFullGroup(w: Sextet, x: Sextet, y: Sextet, z: Sextet, rest: Text)
    ensures var g := Paste(w, x, y, z);
            Encode([g.0, g.1, g.2] + rest) == Symbols((w, x, y, z)) + Encode(rest)
  {
    var g := Paste(w, x, y, z);
    CutPaste(w, x, y, z);
    assert ([g.0, g.1, g.2] + rest)[3..] == rest;
  }

  lemma EncodeDecodeTwo(w: Sextet, x: Sextet)
    ensures Cut(Paste(w, x, 0, 0).0, 0, 0).0 == w
    ensures Cut(Paste(w, x, 0, 0).0, 0, 0).1 == x <==> x % 16 == 0
  {
    DivMod4(w, x / 16);
  }

  lemma EncodeDecodeThree(w: Sextet, x: Sextet, y: Sextet)
    ensures var g := Paste(w, x, y, 0);
            var h := Cut(g.0, g.1, 0);
            h.0 == w && h.1 == x && (h.2 == y <==> y % 4 == 0)
  {
    DivMod4(w, x / 16);
    DivMod16(x % 16, y / 4);
  }

  lemma EncodeDecodeTwoSymbols(w: Sextet, x: Sextet)
    ensures var t := [Symbol(w), Symbol(x)];
            AllInAlphabet(t) && (Encode(DecodeGroups(t)) == t <==> x % 16 == 0)
  {
    DecodeTwoSymbols(w, x);
    EncodeDecodeTwo(w, x);
    var b := Paste(w, x, 0, 0).0;
    var h := Cut(b, 0, 0);
    ValueOfSymbol(x);
    ValueOfSymbol(h.1);
    assert Encode([b]) == [Symbol(w), Symbol(h.1)];
  }

  lemma EncodeDecodeThreeSymbols(w: Sextet, x: Sextet, y: Sextet)
    ensures var t := [Symbol(w), Symbol(x), Symbol(y)];
            AllInAlphabet(t) && (Encode(DecodeGroups(t)) == t <==> y % 4 == 0)
  {
    DecodeThreeSymbols(w, x, y);
    EncodeDecodeThree(w, x, y);
    var g := Paste(w, x, y, 0);
    var h := Cut(g.0, g.1, 0);
    ValueOfSymbol(y);
    ValueOfSymbol(h.2);
    assert Encode([g.0, g.1]) == [Symbol(w), Symbol(x), Symbol(h.2)];
  }

  lemma EncodeDecodeStep(g: (Sextet, Sextet, Sextet, Sextet), rest: Text)
    requires AllInAlphabet(rest) && WholeGroups(rest)
    ensures AllInAlphabet(Symbols(g) + rest) && WholeGroups(Symbols(g) + rest)
    ensures Encode(DecodeGroups(Symbols(g) + rest)) == Symbols(g) + Encode(DecodeGroups(rest))
  {
    DecodeFullGroup(g, rest);
    EncodeFullGroup(g.0, g.1, g.2, g.3, DecodeGroups(rest));
  }

  lemma SameTail(head: Text, x: Text, y: Text)
    ensures head + x == head + y <==> x == y
  {
    assert (head + x)[|head|..] == x && (head + y)[|head|..] == y;
  }

  lemma {:induction false} EncodeDecodeGroups(t: Text)
    requires AllInAlphabet(t) && WholeGroups(t)
    ensures Encode(DecodeGroups(t)) == t <==> SpareBits(t) == 0
    decreases |t|, 1
  {
    if |t| == 0 {
      assert Encode([]) == [];
    } else if |t| == 2 {
      EncodeDecodeTwoSymbols(SymbolValue(t[0]), SymbolValue(t[1]));
      assert t == [t[0], t[1]];
    } else if |t| == 3 {
      EncodeDecodeThreeSymbols(SymbolValue(t[0]), SymbolValue(t[1]), SymbolValue(t[2]));
      assert t == [t[0], t[1], t[2]];
    } else {
      EncodeDecodeLong(t);
    }
  }

  lemma {:induction false} EncodeDecodeLong(t: Text)
    requires AllInAlphabet(t) && WholeGroups(t) && |t| >= 4
    ensures Encode(DecodeGroups(t)) == t <==> SpareBits(t) == 0
    decreases |t|, 0
  {
    var rest := t[4..];
    EncodeDecodeGroups(rest);
    var g := (SymbolValue(t[0]), SymbolValue(t[1]), SymbolValue(t[2]), SymbolValue(t[3]));
    assert t == Symbols(g) + rest;
    EncodeDecodeStep(g, rest);
    SameTail(Symbols(g), Encode(DecodeGroups(rest)), rest);
  }

  /** Re-encoding what was decoded gives the text back exactly for canonical text. */
  lemma EncodeDecode(t: Text)
    requires Decode(t).Some?
    ensures Encode(Decode(t).value) == t <==> Canonical(t)
  {
    if Strip(t) == t {
      EncodeDecodeGroups(t);
    }
  }

  /** What the decoder forgives, a line break and spare bits, and what it does not, a lone
      symbol and a padding sign: Q-newline-Q, QR, Q and QQ= read as A, A, and not at all. */
  lemma DecodeReads()
    ensures Decode([81, 10, 81]) == Some([65]) && Decode([81, 82]) == Some([65])
    ensures Decode([81]) == None && Decode([81, 81, 61]) == None
  {
    var broken: Text, whole: Text, spare: Text, lone: Text, padded: Text :=
      [81, 10, 81], [81, 81], [81, 82], [81], [81, 81, 61];
    assert broken[1..] == [10, 81] && broken[1..][1..] == [81] && lone[1..] == [];
    assert Strip(lone) == lone;
    assert Strip(broken) == whole;
    assert DecodeGroups(whole) == [65] && DecodeGroups(spare) == [65];
    assert Strip(padded) == padded && !InAlphabet(padded[2]);
  }
}
