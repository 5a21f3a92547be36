/**
  The pieces of Python's `str` behaviour the agent relies on: whitespace
  stripping, prefix/suffix tests, find/rfind, ASCII lower-casing, joining,
  and the decimal text of integers (`str(n)` and `int(text)`).
 */
module Text {
  import opened Wrappers

  /** Python's `str.isspace()`; the `\s` class of `re` on str patterns is the same set. */
  predicate IsSpace(c: char) {
    var n := c as int;
    || n == 0x20
    || 0x09 <= n <= 0x0D
    || 0x1C <= n <= 0x1F
    || n == 0x85 || n == 0xA0 || n == 0x1680
    || 0x2000 <= n <= 0x200A
    || n == 0x2028 || n == 0x2029 || n == 0x202F || n == 0x205F || n == 0x3000
  }

  predicate AllSpace(s: string) {
    forall i :: 0 <= i < |s| ==> IsSpace(s[i])
  }

  predicate IsDigit(c: char) {
    '0' <= c <= '9'
  }

  predicate AllDigits(s: string) {
    forall i :: 0 <= i < |s| ==> IsDigit(s[i])
  }

  predicate StartsWith(s: string, prefix: string) {
    |prefix| <= |s| && s[..|prefix|] == prefix
  }

  predicate EndsWith(s: string, suffix: string) {
    |suffix| <= |s| && s[|s| - |suffix|..] == suffix
  }

  /** `s.lstrip()`: the longest suffix of `s` that does not start with whitespace. */
  function StripLeft(s: string): (r: string)
    ensures |r| <= |s| && r == s[|s| - |r|..]
    ensures r == [] || !IsSpace(r[0])
    ensures AllSpace(s[..|s| - |r|])
  {
    if |s| > 0 && IsSpace(s[0]) then
      var t := StripLeft(s[1..]);
      StripLeftStep(s, t);
      t
    else s
  }

  /** Stripping the rest of a string that starts with whitespace strips the
      whole string. */
  lemma StripLeftStep(s: string, t: string)
    requires |s| > 0 && IsSpace(s[0])
    requires |t| <= |s| - 1 && t == s[1..][|s| - 1 - |t|..]
    requires AllSpace(s[1..][..|s| - 1 - |t|])
    ensures t == s[|s| - |t|..] && AllSpace(s[..|s| - |t|])
  {
    forall i | 0 <= i < |s| - |t|
      ensures IsSpace(s[i])
    {
      if i > 0 {
        assert s[i] == s[1..][..|s| - 1 - |t|][i - 1];
      }
    }
  }

  /** `s.rstrip()`: the longest prefix of `s` that does not end with whitespace. */
  function StripRight(s: string): (r: string)
    ensures |r| <= |s| && r == s[..|r|]
    ensures r == [] || !IsSpace(r[|r| - 1])
    ensures AllSpace(s[|r|..])
  {
    if |s| > 0 && IsSpace(s[|s| - 1]) then
      var t := StripRight(s[..|s| - 1]);
      StripRightStep(s, t);
      t
    else s
  }

  /** Stripping all but a trailing whitespace character strips the whole string. */
  lemma StripRightStep(s: string, t: string)
    requires |s| > 0 && IsSpace(s[|s| - 1])
    requires |t| <= |s| - 1 && t == s[..|s| - 1][..|t|]
    requires AllSpace(s[..|s| - 1][|t|..])
    ensures t == s[..|t|] && AllSpace(s[|t|..])
  {
    forall i | |t| <= i < |s|
      ensures IsSpace(s[i])
    {
      if i < |s| - 1 {
        assert s[i] == s[..|s| - 1][|t|..][i - |t|];
      }
    }
  }

  /** `s.strip()`. */
  function Strip(s: string): string {
    StripRight(StripLeft(s))
  }

  /** Stripping only ever removes whitespace from the two ends: `s` is the
      result with an all-whitespace prefix and suffix put back. */
  lemma StripSplit(s: string) returns (lead: string, trail: string)
    ensures s == lead + Strip(s) + trail
    ensures AllSpace(lead) && AllSpace(trail)
    ensures Strip(s) == [] || (!IsSpace(Strip(s)[0]) && !IsSpace(Strip(s)[|Strip(s)| - 1]))
  {
    var l := StripLeft(s);
    var r := StripRight(l);
    lead := s[..|s| - |l|];
    trail := l[|r|..];
    assert Strip(s) == r;
    Reassemble(s, lead, l, r, trail);
    StripEnds(s);
  }

  /** A string cut into a prefix, and the rest cut again, is the three parts joined. */
  lemma Reassemble(s: string, lead: string, l: string, r: string, trail: string)
    requires |lead| <= |s| && lead == s[..|lead|] && l == s[|lead|..]
    requires |r| <= |l| && r == l[..|r|] && trail == l[|r|..]
    ensures s == lead + r + trail
  {
    assert l == r + trail;
    assert s == lead + l;
  }

  /** The strip neither starts nor ends with whitespace. */
  lemma StripEnds(s: string)
    ensures Strip(s) == [] || (!IsSpace(Strip(s)[0]) && !IsSpace(Strip(s)[|Strip(s)| - 1]))
  {
    var l := StripLeft(s);
    var r := StripRight(l);
    if |r| > 0 {
      assert r[0] == l[0];
    }
  }

  /** A string with no whitespace at either end is its own strip. */
  lemma StripUnchanged(s: string)
    requires s == [] || (!IsSpace(s[0]) && !IsSpace(s[|s| - 1]))
    ensures Strip(s) == s
  {
  }

  /** The first and last of three joined strings are its prefix and suffix,
      and the middle one is what lies between them. */
  lemma ConcatParts(a: string, b: string, c: string)
    ensures StartsWith(a + b + c, a) && EndsWith(a + b + c, c)
    ensures (a + b + c)[|a|..|a + b + c| - |c|] == b
  {
    assert (a + b + c)[..|a|] == a;
    assert (a + b + c)[|a + b|..] == c;
    assert (a + b + c)[|a|..|a + b|] == b;
  }

  /** `str.find(c)` for one character: the first index of `c`, or -1. */
  function FindChar(s: string, c: char): (r: int)
    ensures -1 <= r < |s|
    ensures r == -1 ==> forall j :: 0 <= j < |s| ==> s[j] != c
    ensures r >= 0 ==> s[r] == c && forall j :: 0 <= j < r ==> s[j] != c
  {
    if |s| == 0 then -1
    else if s[0] == c then 0
    else
      var k := FindChar(s[1..], c);
      if k == -1 then -1 else k + 1
  }

  /** `str.rfind(c)` for one character: the last index of `c`, or -1. */
  function RFindChar(s: string, c: char): (r: int)
    ensures -1 <= r < |s|
    ensures r == -1 ==> forall j :: 0 <= j < |s| ==> s[j] != c
    ensures r >= 0 ==> s[r] == c && forall j :: r < j < |s| ==> s[j] != c
  {
    if |s| == 0 then -1
    else if s[|s| - 1] == c then |s| - 1
    else RFindChar(s[..|s| - 1], c)
  }

  /** The only index satisfying `FindChar`'s contract is its result. */
  lemma FindCharIs(s: string, c: char, x: int)
    requires 0 <= x < |s| && s[x] == c
    requires forall j :: 0 <= j < x ==> s[j] != c
    ensures FindChar(s, c) == x
  {
  }

  /** The only index satisfying `RFindChar`'s contract is its result. */
  lemma RFindCharIs(s: string, c: char, x: int)
    requires 0 <= x < |s| && s[x] == c
    requires forall j :: x < j < |s| ==> s[j] != c
    ensures RFindChar(s, c) == x
  {
  }

  function LowerChar(c: char): char {
    if 'A' <= c <= 'Z' then (c as int + 32) as char else c
  }

  /** `str.lower()` restricted to ASCII letters; other characters are kept. */
  function AsciiLower(s: string): (r: string)
    ensures |r| == |s|
    ensures forall i :: 0 <= i < |s| ==> r[i] == LowerChar(s[i])
  {
    seq(|s|, i requires 0 <= i < |s| => LowerChar(s[i]))
  }

  /** `sep.join(parts)`. */
  function Join(parts: seq<string>, sep: string): string {
    if |parts| == 0 then ""
    else if |parts| == 1 then parts[0]
    else parts[0] + sep + Join(parts[1..], sep)
  }

  /** `sep.join([x]) == x`. */
  lemma JoinSingle(x: string, sep: string)
    ensures Join([x], sep) == x
  {
  }

  /** Joining one more part appends the separator and that part, so the
      parts appear in order. */
  lemma {:induction false} JoinAppend(parts: seq<string>, x: string, sep: string)
    requires |parts| > 0
    ensures Join(parts + [x], sep) == Join(parts, sep) + sep + x
    decreases |parts|
  {
    assert (parts + [x])[0] == parts[0];
    if |parts| > 1 {
      assert (parts + [x])[1..] == parts[1..] + [x];
      JoinAppend(parts[1..], x, sep);
    } else {
      assert (parts + [x])[1..] == [x];
    }
  }

  // ---------------------------------------------------------------------------
  // Decimal text of integers
  // ---------------------------------------------------------------------------

  function DigitChar(d: nat): (c: char)
    requires d < 10
    ensures IsDigit(c)
  {
    (48 + d) as char
  }

  function DigitValue(c: char): nat
    requires IsDigit(c)
  {
    c as int - 48
  }

  /** `str(n)` for a non-negative integer. */
  function NatToStr(n: nat): (r: string)
    ensures |r| >= 1 && AllDigits(r)
    decreases n
  {
    if n < 10 then [DigitChar(n)] else NatToStr(n / 10) + [DigitChar(n % 10)]
  }

  /** `str(i)`: decimal digits, with a leading '-' for negatives. */
  function IntToStr(i: int): (r: string)
    ensures |r| >= 1
    ensures r[0] == '-' <==> i < 0
  {
    if i < 0 then "-" + NatToStr(-i) else NatToStr(i)
  }

  /** The number a non-empty run of ASCII digits denotes (most significant first). */
  function DigitsValue(s: string): nat
    requires AllDigits(s)
  {
    if |s| == 0 then 0 else DigitsValue(s[..|s| - 1]) * 10 + DigitValue(s[|s| - 1])
  }

  /** One or more ASCII digits and their value; anything else is None. */
  function Digits(d: string): (r: Option<nat>)
    ensures r.Some? <==> |d| > 0 && AllDigits(d)
  {
    if |d| > 0 && AllDigits(d) then Some(DigitsValue(d)) else None
  }

  /** `int(s)` on a str: surrounding whitespace is ignored, one optional sign,
      then one or more ASCII digits; anything else is a ValueError (None). */
  function ParseInt(s: string): (r: Option<int>)
    ensures r.Some? ==> |Strip(s)| >= 1
  {
    var t := Strip(s);
    if |t| == 0 then None
    else if t[0] == '-' then
      match Digits(t[1..])
      case Some(v) => Some(-(v as int))
      case None => None
    else if t[0] == '+' then
      match Digits(t[1..])
      case Some(v) => Some(v as int)
      case None => None
    else
      match Digits(t)
      case Some(v) => Some(v as int)
      case None => None
  }

  lemma {:induction false} NatToStrRoundTrip(n: nat)
    ensures DigitsValue(NatToStr(n)) == n
    decreases n
  {
    var s := NatToStr(n);
    if n >= 10 {
      NatToStrRoundTrip(n / 10);
      assert s[..|s| - 1] == NatToStr(n / 10);
    }
  }

  /** Reading back the decimal text of any integer gives the integer. */
  lemma IntToStrRoundTrip(i: int)
    ensures ParseInt(IntToStr(i)) == Some(i)
  {
    if i < 0 {
      var n: nat := -i;
      assert IntToStr(i) == "-" + NatToStr(n);
      SignedTextRead(n);
      assert -(n as int) == i;
    } else {
      assert IntToStr(i) == NatToStr(i);
      DigitsTextRead(i);
    }
  }

  /** The digits of a natural number read back as that number. */
  lemma DigitsTextRead(n: nat)
    ensures ParseInt(NatToStr(n)) == Some(n)
  {
    var d := NatToStr(n);
    UnsignedDigitsRead(d);
    NatToStrRoundTrip(n);
    assert DigitsValue(d) == n;
  }

  /** A minus sign before the digits of `n` reads back as `-n`. */
  lemma SignedTextRead(n: nat)
    ensures ParseInt("-" + NatToStr(n)) == Some(-(n as int))
  {
    var d := NatToStr(n);
    var s := "-" + d;
    assert s[0] == '-' && s[1..] == d;
    NatToStrRoundTrip(n);
    SignedDigitsRead(s, n);
  }

  /** `int()` of a run of digits is the value of those digits. */
  lemma UnsignedDigitsRead(s: string)
    requires |s| >= 1 && AllDigits(s)
    ensures ParseInt(s) == Some(DigitsValue(s) as int)
  {
    DigitNotSpace(s[0]);
    DigitNotSpace(s[|s| - 1]);
    StripUnchanged(s);
  }

  /** `int()` of a minus sign and a run of digits worth `n` is `-n`. */
  lemma SignedDigitsRead(s: string, n: nat)
    requires |s| >= 2 && s[0] == '-' && AllDigits(s[1..]) && DigitsValue(s[1..]) == n
    ensures ParseInt(s) == Some(-(n as int))
  {
    var d := s[1..];
    assert s[|s| - 1] == d[|d| - 1];
    DigitNotSpace(d[|d| - 1]);
    StripUnchanged(s);
  }

  lemma DigitNotSpace(c: char)
    requires IsDigit(c)
    ensures !IsSpace(c)
  {
  }

  /** Distinct integers have distinct decimal text. */
  lemma IntToStrInjective(a: int, b: int)
    ensures IntToStr(a) == IntToStr(b) ==> a == b
  {
    IntToStrRoundTrip(a);
    IntToStrRoundTrip(b);
  }
}
