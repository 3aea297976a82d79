/** Byte strings as Go, Lua and Redis see them, the wrapper types shared by the
    model, and the order a sorted set keeps its elements in. */
module Bytes {

  type Byte = x: int | 0 <= x < 256
  type Text = seq<Byte>

  datatype Option<+T> = None | Some(value: T)

  const COLON: Byte := 58
  const MINUS: Byte := 45
  const PLUS: Byte := 43
  const ZERO: Byte := 48

  const TWO_63: int := 0x8000_0000_0000_0000
  const TWO_53: int := 0x20_0000_0000_0000

  type Int64 = x: int | -TWO_63 <= x < TWO_63

  /** A score: milliseconds since the epoch, in the range where a 64-bit float is exact. */
  type Millis = x: int | -TWO_53 <= x <= TWO_53

  lemma SignsAre()
    ensures COLON == ':' as int && MINUS == '-' as int && PLUS == '+' as int && ZERO == '0' as int
  {
  }

  // ---------------------------------------------------------------- order

  /** Byte-wise comparison; a proper prefix comes first. */
  predicate LexLess(a: Text, b: Text)
    decreases |a|
  {
    && b != []
    && (|| a == []
        || a[0] < b[0]
        || (a[0] == b[0] && LexLess(a[1..], b[1..])))
  }

  lemma {:induction false} LexTotal(a: Text, b: Text)
    ensures a == b || LexLess(a, b) || LexLess(b, a)
    decreases |a|
  {
    if a != [] && b != [] && a[0] == b[0] {
      LexTotal(a[1..], b[1..]);
      if a[1..] == b[1..] {
        assert a == [a[0]] + a[1..] == b;
      }
    }
  }

  lemma {:induction false} LexAsymmetric(a: Text, b: Text)
    requires LexLess(a, b)
    ensures !LexLess(b, a) && a != b
    decreases |a|
  {
    if a != [] && a[0] == b[0] {
      LexAsymmetric(a[1..], b[1..]);
    }
  }

  lemma {:induction false} LexTransitive(a: Text, b: Text, c: Text)
    requires LexLess(a, b) && LexLess(b, c)
    ensures LexLess(a, c)
    decreases |a|
  {
    if a != [] && a[0] == b[0] == c[0] {
      LexTransitive(a[1..], b[1..], c[1..]);
    }
  }

  /** A common beginning does not matter; then the smaller byte comes first, and nothing
      before something. */
  lemma {:induction false} LexDecides(p: Text, a: Text, b: Text)
    ensures LexLess(p + a, p + b) <==> LexLess(a, b)
    ensures a == [] && b != [] ==> LexLess(p + a, p + b)
    ensures a != [] && b != [] && a[0] < b[0] ==> LexLess(p + a, p + b)
    decreases |p|
  {
    if p == [] {
      assert p + a == a && p + b == b;
    } else {
      assert (p + a)[1..] == p[1..] + a && (p + b)[1..] == p[1..] + b;
      LexDecides(p[1..], a, b);
    }
  }

  /** The sort key of a sorted-set element: score first, then member bytes. */
  datatype Key = Key(score: int, member: Text)

  predicate Before(a: Key, b: Key) {
    a.score < b.score || (a.score == b.score && LexLess(a.member, b.member))
  }

  lemma BeforeTotal(a: Key, b: Key)
    ensures a == b || Before(a, b) || Before(b, a)
  {
    LexTotal(a.member, b.member);
  }

  lemma BeforeAsymmetric(a: Key, b: Key)
    requires Before(a, b)
    ensures !Before(b, a) && a != b
  {
    if a.score == b.score {
      LexAsymmetric(a.member, b.member);
    }
  }

  lemma BeforeTransitive(a: Key, b: Key, c: Key)
    requires Before(a, b) && Before(b, c)
    ensures Before(a, c)
  {
    if a.score == b.score == c.score {
      LexTransitive(a.member, b.member, c.member);
    }
  }

  // ------------------------------------------------------------- splitting

  /** Lua's `string.match(s, '^[^:]*')`: everything before the first colon. */
  function FirstField(s: Text): (f: Text)
    ensures COLON !in f && f <= s
    ensures |f| < |s| ==> s[|f|] == COLON
  {
    if s == [] || s[0] == COLON then [] else [s[0]] + FirstField(s[1..])
  }

  lemma {:induction false} FirstFieldOf(a: Text, rest: Text)
    requires COLON !in a
    ensures FirstField(a + [COLON] + rest) == a
    ensures FirstField(a) == a
    decreases |a|
  {
    if a != [] {
      FirstFieldOf(a[1..], rest);
      assert (a + [COLON] + rest)[1..] == a[1..] + [COLON] + rest;
    }
  }

  /** Go's `strings.SplitN(s, ":", n)` for positive n. */
  function SplitN(s: Text, n: nat): (parts: seq<Text>)
    requires n >= 1
    ensures 1 <= |parts| <= n
    decreases n
  {
    if n == 1 || COLON !in s then [s]
    else
      var f := FirstField(s);
      FirstFieldShort(s);
      [f] + SplitN(s[|f| + 1..], n - 1)
  }

  lemma FirstFieldShort(s: Text)
    requires COLON in s
    ensures |FirstField(s)| < |s|
  {
    assert |FirstField(s)| == |s| ==> FirstField(s) == s;
  }

  lemma SplitNCons(a: Text, rest: Text, n: nat)
    requires COLON !in a && n >= 2
    ensures SplitN(a + [COLON] + rest, n) == [a] + SplitN(rest, n - 1)
  {
    var s := a + [COLON] + rest;
    FirstFieldOf(a, rest);
    assert s[|a|] == COLON;
    assert s[|a| + 1..] == rest;
  }

  /** What follows the first separator. */
  function AfterFirst(s: Text): Text
    requires COLON in s
  {
    FirstFieldShort(s);
    s[|FirstField(s)| + 1..]
  }

  lemma SplitNHead(s: Text, n: nat)
    requires n >= 2 && COLON in s
    ensures s == FirstField(s) + [COLON] + AfterFirst(s)
    ensures SplitN(s, n) == [FirstField(s)] + SplitN(AfterFirst(s), n - 1)
  {
    FirstFieldShort(s);
  }
}
