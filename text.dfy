/** Character classes and the string operations the validators rely on:
    Python's str.strip(), str.split("-") and int() on a decimal numeral. */
module Text {

  predicate IsDigit(c: char) {
    '0' <= c <= '9'
  }

  predicate AllDigits(s: string) {
    forall i :: 0 <= i < |s| ==> IsDigit(s[i])
  }

  /** A non-empty run of ASCII digits: what int() is given by the date validator. */
  predicate IsNumeral(s: string) {
    |s| > 0 && AllDigits(s)
  }

  /** The characters Python's str.isspace() accepts, hence those str.strip() removes. */
  predicate IsSpace(c: char) {
    || ('\t' <= c <= '\r')
    || ('\U{1C}' <= c <= ' ')
    || c == '\U{85}' || c == '\U{A0}' || c == '\U{1680}'
    || ('\U{2000}' <= c <= '\U{200A}')
    || c == '\U{2028}' || c == '\U{2029}' || c == '\U{202F}' || c == '\U{205F}' || c == '\U{3000}'
  }

  function Pow10(n: nat): (p: nat)
    ensures p >= 1
  {
    if n == 0 then 1 else 10 * Pow10(n - 1)
  }

  /** The value int() gives a numeral: its digits read in base 10. */
  function DigitsValue(s: string): (n: nat)
    requires AllDigits(s)
    ensures n < Pow10(|s|)
  {
    if s == [] then 0
    else 10 * DigitsValue(s[..|s| - 1]) + (s[|s| - 1] as int - '0' as int)
  }

  lemma AllDigitsAppend(a: string, b: string)
    requires AllDigits(a) && AllDigits(b)
    ensures AllDigits(a + b)
  {
    forall i | 0 <= i < |a + b| ensures IsDigit((a + b)[i]) {
      if i >= |a| {
        assert (a + b)[i] == b[i - |a|];
      }
    }
  }

  lemma ShiftOneDigit(va: int, vb: int, p: int, d: int)
    ensures 10 * (va * p + vb) + d == va * (10 * p) + (10 * vb + d)
  {
  }

  /** Reading a numeral in two pieces: the leading digits count |b| places higher. */
  lemma {:induction false} DigitsValueAppend(a: string, b: string)
    requires AllDigits(a) && AllDigits(b)
    ensures AllDigits(a + b)
    ensures DigitsValue(a + b) == DigitsValue(a) * Pow10(|b|) + DigitsValue(b)
    decreases |b|
  {
    AllDigitsAppend(a, b);
    if b != [] {
      var b' := b[..|b| - 1];
      var d := b[|b| - 1] as int - '0' as int;
      assert (a + b)[..|a + b| - 1] == a + b';
      assert (a + b)[|a + b| - 1] == b[|b| - 1];
      DigitsValueAppend(a, b');
      assert DigitsValue(a + b) == 10 * DigitsValue(a + b') + d;
      assert DigitsValue(b) == 10 * DigitsValue(b') + d;
      ShiftOneDigit(DigitsValue(a), DigitsValue(b'), Pow10(|b'|), d);
    } else {
      assert a + b == a;
    }
  }

  /** Leading zeros do not change the value: int("07") == int("7"). */
  lemma LeadingZeroIgnored(s: string)
    requires AllDigits(s)
    ensures AllDigits("0" + s) && DigitsValue("0" + s) == DigitsValue(s)
  {
    assert DigitsValue("0") == 0 by {
      assert "0"[..0] == "";
    }
    DigitsValueAppend("0", s);
  }

  /** str.lstrip(): drops the leading white space and nothing else. */
  function StripLeft(s: string): (r: string)
    ensures |r| <= |s| && r == s[|s| - |r|..]
    ensures forall i :: 0 <= i < |s| - |r| ==> IsSpace(s[i])
    ensures r == [] || !IsSpace(r[0])
  {
    if s != [] && IsSpace(s[0]) then StripLeft(s[1..]) else s
  }

  /** str.rstrip(): drops the trailing white space and nothing else. */
  function StripRight(s: string): (r: string)
    ensures |r| <= |s| && r == s[..|r|]
    ensures forall i :: |r| <= i < |s| ==> IsSpace(s[i])
    ensures r == [] || !IsSpace(r[|r| - 1])
  {
    if s != [] && IsSpace(s[|s| - 1]) then StripRight(s[..|s| - 1]) else s
  }

  /** str.strip(): no white space is left at either end, and a string without
      white space is kept as it is (StripKeepsMiddle and StripRemovesOnlySpace say
      that only the ends are removed). */
  function Strip(s: string): (r: string)
    ensures |r| <= |s|
    ensures r == [] || (!IsSpace(r[0]) && !IsSpace(r[|r| - 1]))
    ensures (forall i :: 0 <= i < |s| ==> !IsSpace(s[i])) ==> r == s
  {
    StripRight(StripLeft(s))
  }

  /** strip() keeps one contiguous run of s: the characters that follow the k
      leading characters lstrip() removes. */
  lemma StripKeepsMiddle(s: string)
    ensures var k := |s| - |StripLeft(s)|;
      k + |Strip(s)| <= |s| && forall i :: 0 <= i < |Strip(s)| ==> Strip(s)[i] == s[k + i]
  {
    var l := StripLeft(s);
    var k := |s| - |l|;
    assert l == s[k..];
    assert Strip(s) == l[..|Strip(s)|];
    forall i | 0 <= i < |Strip(s)|
      ensures Strip(s)[i] == s[k + i]
    {
      assert Strip(s)[i] == l[i];
    }
  }

  /** Everything strip() drops, before and after the run it keeps, is white space. */
  lemma StripRemovesOnlySpace(s: string)
    ensures var k := |s| - |StripLeft(s)|;
      && (forall i :: 0 <= i < k ==> IsSpace(s[i]))
      && (forall i :: k + |Strip(s)| <= i < |s| ==> IsSpace(s[i]))
  {
    var l := StripLeft(s);
    var k := |s| - |l|;
    assert l == s[k..];
    forall i | k + |Strip(s)| <= i < |s|
      ensures IsSpace(s[i])
    {
      assert s[i] == l[i - k];
    }
  }

  /** A leading white-space character makes no difference to what strip() returns,
      and the padded text is not its own stripped form. */
  lemma StripLeadingSpace(s: string)
    ensures Strip(" " + s) == Strip(s)
    ensures Strip(" " + s) != " " + s
  {
    assert (" " + s)[1..] == s;
  }

  /** The fields joined back with '-' between them: str.join's inverse of Split. */
  function Join(parts: seq<string>): string
    requires |parts| >= 1
  {
    if |parts| == 1 then parts[0] else parts[0] + "-" + Join(parts[1..])
  }

  /** s.split("-"): the maximal dash-free fields of s, in order. */
  function Split(s: string): (parts: seq<string>)
    ensures |parts| >= 1
    ensures forall i :: 0 <= i < |parts| ==> '-' !in parts[i]
    ensures Join(parts) == s
  {
    if s == [] then [""]
    else
      var rest := Split(s[1..]);
      if s[0] == '-' then
        assert ([""] + rest)[1..] == rest;
        [""] + rest
      else
        var parts := [[s[0]] + rest[0]] + rest[1..];
        assert parts[1..] == rest[1..];
        assert |rest| > 1 ==> Join(rest) == rest[0] + "-" + Join(rest[1..]);
        assert s == [s[0]] + s[1..];
        parts
  }

  /** Splitting a dash-free prefix followed by a dash peels off that prefix as one field. */
  lemma {:induction false} SplitAfterField(x: string, y: string)
    requires '-' !in x
    ensures Split(x + "-" + y) == [x] + Split(y)
    decreases |x|
  {
    if x == [] {
      assert x + "-" + y == ['-'] + y;
      assert (['-'] + y)[1..] == y;
    } else {
      var s := x + "-" + y;
      assert s[0] == x[0] && s[1..] == x[1..] + "-" + y;
      SplitAfterField(x[1..], y);
      assert [x[0]] + x[1..] == x;
    }
  }

  /** A dash-free string is a single field. */
  lemma {:induction false} SplitSingleField(x: string)
    requires '-' !in x
    ensures Split(x) == [x]
    decreases |x|
  {
    if x != [] {
      SplitSingleField(x[1..]);
      assert [x[0]] + x[1..] == x;
    }
  }

  /** Three dash-free fields joined by dashes split back into exactly those three. */
  lemma {:induction false} SplitThreeFields(a: string, b: string, c: string)
    requires '-' !in a && '-' !in b && '-' !in c
    ensures Split(a + "-" + b + "-" + c) == [a, b, c]
  {
    assert a + "-" + b + "-" + c == a + "-" + (b + "-" + c);
    SplitAfterField(a, b + "-" + c);
    SplitAfterField(b, c);
    SplitSingleField(c);
  }
}
