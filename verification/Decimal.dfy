/** Base-10 text of 64-bit integers: Go's `%d` and `strconv.ParseInt(s, 10, 64)`. */
module Decimal {
  import opened Bytes

  function Digits(n: nat): (s: Text)
    ensures s != [] && AllDigits(s)
  {
    if n < 10 then [ZERO + n] else Digits(n / 10) + [ZERO + n % 10]
  }

  function FormatInt(n: int): Text {
    if n < 0 then [MINUS] + Digits(-n) else Digits(n)
  }

  predicate AllDigits(s: Text) {
    forall i :: 0 <= i < |s| ==> ZERO <= s[i] <= ZERO + 9
  }

  function Value(s: Text): (v: nat)
    requires AllDigits(s)
  {
    if s == [] then 0
    else
      var last: int := s[|s| - 1];
      10 * Value(s[..|s| - 1]) + (last - ZERO)
  }

  /** An optional sign, then at least one digit and nothing else, in range. */
  function ParseInt(s: Text): (r: Option<Int64>)
    ensures s == [] ==> r == None
  {
    if s == [] then None
    else
      var signed := s[0] == MINUS || s[0] == PLUS;
      var body := if signed then s[1..] else s;
      if body == [] || !AllDigits(body) then None
      else
        var v: int := Value(body);
        if s[0] == MINUS then
          if v > TWO_63 then None else Some(-v)
        else
          if v >= TWO_63 then None else Some(v)
  }

  lemma {:induction false} ValueOfDigits(n: nat)
    ensures Value(Digits(n)) == n
  {
    if n >= 10 {
      ValueOfDigits(n / 10);
      assert Digits(n)[..|Digits(n)| - 1] == Digits(n / 10);
    }
  }

  function Magnitude(n: int): nat { if n < 0 then -n else n }

  lemma ParseFormat(n: Int64)
    ensures ParseInt(FormatInt(n)) == Some(n)
    ensures COLON !in FormatInt(n)
    ensures FormatInt(n) != []
  {
    var a := Magnitude(n);
    var d := Digits(a);
    ValueOfDigits(a);
    assert ZERO <= d[0] <= ZERO + 9;
    assert n < 0 ==> FormatInt(n)[1..] == d;
  }

  /** Text that `%d` can print: no plus sign, no leading zero, no negative zero. */
  predicate Canonical(s: Text) {
    var body := if s != [] && s[0] == MINUS then s[1..] else s;
    && body != [] && AllDigits(body)
    && (body[0] == ZERO ==> s == [ZERO])
  }

  lemma {:induction false} DigitsOfValue(s: Text)
    requires s != [] && AllDigits(s) && (s[0] == ZERO ==> |s| == 1)
    ensures Digits(Value(s)) == s
    ensures s[0] != ZERO ==> Value(s) > 0
    decreases |s|
  {
    var front := s[..|s| - 1];
    if |s| == 1 {
      assert Value(front) == 0;
    } else {
      DigitsOfValue(front);
      var last: int := s[|s| - 1];
      assert Value(s) == 10 * Value(front) + (last - ZERO);
      assert s == front + [s[|s| - 1]];
    }
  }

  lemma {:induction false} DigitsCanonical(n: nat)
    ensures Digits(n)[0] == ZERO ==> n == 0
  {
    if n >= 10 {
      DigitsCanonical(n / 10);
    }
  }

  lemma FormatIsCanonical(n: int)
    ensures Canonical(FormatInt(n))
  {
    var d := Digits(Magnitude(n));
    DigitsCanonical(Magnitude(n));
    assert ZERO <= d[0] <= ZERO + 9;
    assert n < 0 ==> FormatInt(n)[1..] == d;
  }

  lemma CanonicalIsFormat(s: Text)
    requires ParseInt(s).Some? && Canonical(s)
    ensures FormatInt(ParseInt(s).value) == s
  {
    hide Value, Digits;
    if s[0] == MINUS {
      var body := s[1..];
      DigitsOfValue(body);
      var v: int := Value(body);
      assert ParseInt(s).value == -v && v > 0;
      assert s == [MINUS] + body;
    } else {
      DigitsOfValue(s);
    }
  }

  /** Printing what was parsed gives the text back exactly for canonical text. */
  lemma FormatParse(s: Text)
    requires ParseInt(s).Some?
    ensures FormatInt(ParseInt(s).value) == s <==> Canonical(s)
  {
    FormatIsCanonical(ParseInt(s).value);
    if Canonical(s) {
      CanonicalIsFormat(s);
    }
  }

  lemma ParsePlusOne()
    ensures ParseInt([PLUS, 49]) == ParseInt([49]) == Some(1) && !Canonical([PLUS, 49])
  {
    var one: Text, plusOne: Text := [49], [PLUS, 49];
    assert plusOne[1..] == one && one[..0] == [];
    assert Value(one) == 1;
    assert plusOne[0] == PLUS;
  }
}
