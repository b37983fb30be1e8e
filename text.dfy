/** The small pieces of java.lang the storage layer leans on: 32-bit `int`,
    `String.trim`, `String.isBlank`, `String.equalsIgnoreCase`, `String.split(";", -1)`,
    `Integer.parseInt` and `Integer.toString`. */
module Text {
  import opened Wrappers

  const INT_MIN: int := -0x8000_0000
  const INT_MAX: int := 0x7FFF_FFFF

  /** A Java `int`. */
  type Int32 = x: int | INT_MIN <= x <= INT_MAX

  /** Java `int` addition wraps around modulo 2^32. */
  function WrapInt32(x: int): (r: Int32)
    ensures (r - x) % 0x1_0000_0000 == 0
    ensures INT_MIN <= x <= INT_MAX ==> r == x
    ensures x == INT_MAX + 1 ==> r == INT_MIN
  {
    (x - INT_MIN) % 0x1_0000_0000 + INT_MIN
  }

  // ---------------------------------------------------------------------------
  // Whitespace, trim, blank
  // ---------------------------------------------------------------------------

  /** `Character.isWhitespace`: the Unicode space, line and paragraph separators other
      than the no-break spaces, plus the ASCII controls U+0009..U+000D and U+001C..U+001F. */
  predicate IsWhitespace(c: char) {
    var n := c as int;
    || 0x09 <= n <= 0x0D || 0x1C <= n <= 0x20
    || n == 0x1680 || 0x2000 <= n <= 0x2006 || 0x2008 <= n <= 0x200A
    || n == 0x2028 || n == 0x2029 || n == 0x205F || n == 0x3000
  }

  /** `String.isBlank`: empty or whitespace only. */
  predicate IsBlank(s: string) {
    forall i | 0 <= i < |s| :: IsWhitespace(s[i])
  }

  /** `String.trim` removes every leading and trailing character whose code is at most U+0020. */
  predicate IsTrimmable(c: char) { c <= ' ' }

  /** A string that `String.trim` leaves as it is. */
  predicate IsTrimmed(s: string) {
    s == [] || (!IsTrimmable(s[0]) && !IsTrimmable(s[|s| - 1]))
  }

  /** Every character is one that `String.trim` cuts off. */
  predicate AllTrimmable(s: string) {
    forall i | 0 <= i < |s| :: IsTrimmable(s[i])
  }

  function TrimStart(s: string): (r: string)
    ensures |r| <= |s| && r == s[|s| - |r|..]
    ensures AllTrimmable(s[..|s| - |r|])
    ensures r == [] || !IsTrimmable(r[0])
  {
    if |s| > 0 && IsTrimmable(s[0]) then
      var r := TrimStart(s[1..]);
      assert s[..|s| - |r|] == [s[0]] + s[1..][..|s| - 1 - |r|];
      r
    else s
  }

  function TrimEnd(s: string): (r: string)
    ensures |r| <= |s| && r == s[..|r|]
    ensures AllTrimmable(s[|r|..])
    ensures r == [] || !IsTrimmable(r[|r| - 1])
  {
    if |s| > 0 && IsTrimmable(s[|s| - 1]) then
      var r := TrimEnd(s[..|s| - 1]);
      assert s[|r|..] == s[..|s| - 1][|r|..] + [s[|s| - 1]];
      r
    else s
  }

  /** `r` is what `String.trim` leaves of `s`: `s` is `r` with a run of characters up to
      U+0020 in front and another behind, and `r` neither starts nor ends with one. Only
      one part of `s` fits: its first kept character is the first one above U+0020. */
  predicate IsTrimOf(s: string, r: string) {
    && IsTrimmed(r) && |r| <= |s|
    && exists p | 0 <= p <= |s| - |r| ::
         r == s[p..p + |r|] && AllTrimmable(s[..p]) && AllTrimmable(s[p + |r|..])
  }

  /** `String.trim`. */
  function Trim(s: string): (r: string)
    ensures IsTrimOf(s, r)
    ensures IsTrimmed(r) && |r| <= |s|
  {
    var t := TrimStart(s);
    var r := TrimEnd(t);
    TrimPieces(s, t, r);
    r
  }

  /** The two halves of `Trim` put together: what `TrimStart` cuts is a run in front,
      what `TrimEnd` then cuts is a run behind, and what is left is one slice of `s`. */
  lemma TrimPieces(s: string, t: string, r: string)
    requires |t| <= |s| && t == s[|s| - |t|..] && AllTrimmable(s[..|s| - |t|])
    requires t == [] || !IsTrimmable(t[0])
    requires |r| <= |t| && r == t[..|r|] && AllTrimmable(t[|r|..])
    requires r == [] || !IsTrimmable(r[|r| - 1])
    ensures IsTrimOf(s, r)
  {
    if r != [] { assert r[0] == t[0]; }
    var p := |s| - |t|;
    assert s[p + |r|..] == t[|r|..];
    assert r == s[p..p + |r|] && AllTrimmable(s[..p]) && AllTrimmable(s[p + |r|..]);
  }

  /** At most one part of a string is what `String.trim` leaves of it, so `IsTrimOf`
      determines `Trim` completely. */
  lemma IsTrimOfUnique(s: string, r1: string, r2: string)
    requires IsTrimOf(s, r1) && IsTrimOf(s, r2)
    ensures r1 == r2
  {
    var p1 :| 0 <= p1 <= |s| - |r1| && r1 == s[p1..p1 + |r1|] && AllTrimmable(s[..p1]) && AllTrimmable(s[p1 + |r1|..]);
    var p2 :| 0 <= p2 <= |s| - |r2| && r2 == s[p2..p2 + |r2|] && AllTrimmable(s[..p2]) && AllTrimmable(s[p2 + |r2|..]);
    TrimmedRuns(s, r1, p1);
    TrimmedRuns(s, r2, p2);
    if r1 != [] && r2 != [] {
      assert p1 == p2 && p1 + |r1| == p2 + |r2|;
    } else {
      assert r1 == [] && r2 == [];
    }
  }

  /** Read position by position: the runs in front of and behind the kept part consist
      of cut characters, and a non-empty kept part begins and ends with a kept one. */
  lemma TrimmedRuns(s: string, r: string, p: int)
    requires IsTrimmed(r) && 0 <= p <= |s| - |r| && r == s[p..p + |r|]
    requires AllTrimmable(s[..p]) && AllTrimmable(s[p + |r|..])
    ensures forall i | 0 <= i < p :: IsTrimmable(s[i])
    ensures forall i | p + |r| <= i < |s| :: IsTrimmable(s[i])
    ensures r != [] ==> !IsTrimmable(s[p]) && !IsTrimmable(s[p + |r| - 1])
  {
    assert forall i | 0 <= i < p :: s[..p][i] == s[i];
    assert forall i | p + |r| <= i < |s| :: s[p + |r|..][i - p - |r|] == s[i];
  }

  /** What `String.trim` keeps is a contiguous part of its argument: the part after the
      characters `TrimStart` cuts off. */
  lemma {:induction false} TrimIsInfix(s: string)
    ensures |s| - |TrimStart(s)| + |Trim(s)| <= |s|
    ensures Trim(s) == s[|s| - |TrimStart(s)|..][..|Trim(s)|]
  {
    var t := TrimStart(s);
    assert Trim(s) == TrimEnd(t);
  }

  lemma {:induction false} TrimOfTrimmed(s: string)
    requires IsTrimmed(s)
    ensures Trim(s) == s
  {
    assert TrimStart(s) == s;
    assert TrimEnd(s) == s;
  }

  /** Trimming twice is trimming once. */
  lemma TrimIdempotent(s: string)
    ensures Trim(Trim(s)) == Trim(s)
  {
    TrimOfTrimmed(Trim(s));
  }

  // ---------------------------------------------------------------------------
  // ASCII case-insensitive comparison
  // ---------------------------------------------------------------------------

  function UpperAscii(c: char): char {
    if 'a' <= c <= 'z' then (c as int - 32) as char else c
  }

  /** `String.equalsIgnoreCase`, with the case mapping restricted to ASCII letters. */
  predicate EqualsIgnoreCase(a: string, b: string) {
    |a| == |b| && forall i | 0 <= i < |a| :: UpperAscii(a[i]) == UpperAscii(b[i])
  }

  function ToUpperAscii(s: string): (r: string)
    ensures |r| == |s|
    ensures forall i | 0 <= i < |s| :: r[i] == UpperAscii(s[i])
  {
    seq(|s|, i requires 0 <= i < |s| => UpperAscii(s[i]))
  }

  /** Comparing ignoring case is comparing the upper-cased strings. */
  lemma EqualsIgnoreCaseIffUpper(a: string, b: string)
    ensures EqualsIgnoreCase(a, b) <==> ToUpperAscii(a) == ToUpperAscii(b)
  {
    if ToUpperAscii(a) == ToUpperAscii(b) {
      assert |a| == |b|;
      forall i | 0 <= i < |a| ensures UpperAscii(a[i]) == UpperAscii(b[i]) {
        assert ToUpperAscii(a)[i] == ToUpperAscii(b)[i];
      }
    }
  }

  // ---------------------------------------------------------------------------
  // Splitting on the field separator
  // ---------------------------------------------------------------------------

  const SEP: char := ';'

  /** Fields joined with the separator, as the `write*` methods concatenate them. */
  function Join(fields: seq<string>): string
    requires |fields| >= 1
  {
    if |fields| == 1 then fields[0] else fields[0] + [SEP] + Join(fields[1..])
  }

  /** `line.split(";", -1)`: every separator ends a field, so a line with n separators
      has n + 1 fields, the empty ones included; the fields never contain the separator
      and joining them gives the line back. */
  function Split(s: string): (r: seq<string>)
    ensures |r| >= 1
    ensures forall i | 0 <= i < |r| :: SEP !in r[i]
    ensures Join(r) == s
  {
    if |s| == 0 then [""]
    else
      var rest := Split(s[1..]);
      if s[0] == SEP then
        [""] + rest
      else
        var r := [[s[0]] + rest[0]] + rest[1..];
        assert forall i | 1 <= i < |r| :: r[i] == rest[i];
        assert Join(r) == [s[0]] + Join(rest) by {
          if |rest| > 1 {
            assert r[1..] == rest[1..];
          }
        }
        r
  }

  lemma {:induction false} SplitNoSeparator(a: string)
    requires SEP !in a
    ensures Split(a) == [a]
  {
    if |a| > 0 {
      SplitNoSeparator(a[1..]);
      assert [a[0]] + a[1..] == a;
    }
  }

  lemma {:induction false} SplitFirstField(a: string, t: string)
    requires SEP !in a
    ensures Split(a + [SEP] + t) == [a] + Split(t)
  {
    var s := a + [SEP] + t;
    if |a| == 0 {
      assert s[1..] == t;
    } else {
      assert s[1..] == a[1..] + [SEP] + t;
      SplitFirstField(a[1..], t);
      assert [a[0]] + a[1..] == a;
    }
  }

  /** Splitting what was joined gives the fields back, as long as no field holds the separator. */
  lemma {:induction false} SplitJoin(fields: seq<string>)
    requires |fields| >= 1
    requires forall i | 0 <= i < |fields| :: SEP !in fields[i]
    ensures Split(Join(fields)) == fields
  {
    if |fields| == 1 {
      SplitNoSeparator(fields[0]);
    } else {
      SplitJoin(fields[1..]);
      SplitFirstField(fields[0], Join(fields[1..]));
      assert [fields[0]] + fields[1..] == fields;
    }
  }

  // ---------------------------------------------------------------------------
  // Decimal integers
  // ---------------------------------------------------------------------------

  predicate IsDigit(c: char) { '0' <= c <= '9' }

  predicate AllDigits(s: string) { forall i | 0 <= i < |s| :: IsDigit(s[i]) }

  function DigitValue(c: char): nat
    requires IsDigit(c)
  {
    c as int - '0' as int
  }

  function DigitChar(d: nat): (c: char)
    requires d < 10
    ensures IsDigit(c) && DigitValue(c) == d
  {
    ('0' as int + d) as char
  }

  /** The value of a string of decimal digits, most significant first. */
  function DigitsValue(s: string): nat
    requires AllDigits(s)
  {
    if |s| == 0 then 0 else DigitsValue(s[..|s| - 1]) * 10 + DigitValue(s[|s| - 1])
  }

  predicate IsSign(c: char) { c == '+' || c == '-' }

  /** `Integer.parseInt(s)`: an optional `+` or `-`, then at least one decimal digit,
      with a value inside the `int` range; anything else is a NumberFormatException. */
  function ParseInt(s: string): (r: Option<Int32>)
    ensures r.Some? ==> |s| >= 1 && !IsTrimmable(s[0]) && !IsTrimmable(s[|s| - 1])
    ensures r.Some? ==> (|s| >= 1 && AllDigits(s)) || (|s| >= 2 && IsSign(s[0]) && AllDigits(s[1..]))
    ensures |s| >= 1 && AllDigits(s) ==>
      r == (if DigitsValue(s) <= INT_MAX then Some(DigitsValue(s)) else None)
    ensures |s| >= 2 && s[0] == '+' && AllDigits(s[1..]) ==>
      r == (if DigitsValue(s[1..]) <= INT_MAX then Some(DigitsValue(s[1..])) else None)
    ensures |s| >= 2 && s[0] == '-' && AllDigits(s[1..]) ==>
      r == (if DigitsValue(s[1..]) <= -INT_MIN then Some(0 - DigitsValue(s[1..]) as int) else None)
  {
    if |s| == 0 then None
    else if s[0] == '-' || s[0] == '+' then
      var digits := s[1..];
      if |digits| == 0 || !AllDigits(digits) then None
      else
        assert IsDigit(digits[|digits| - 1]);
        var v: int := if s[0] == '-' then 0 - DigitsValue(digits) as int else DigitsValue(digits);
        if INT_MIN <= v <= INT_MAX then Some(v) else None
    else if AllDigits(s) && DigitsValue(s) <= INT_MAX then Some(DigitsValue(s))
    else None
  }

  /** The decimal digits of a natural number, without leading zeros. */
  function NatToString(n: nat): (s: string)
    ensures |s| >= 1 && AllDigits(s) && DigitsValue(s) == n
    ensures s[0] == '0' ==> n == 0
  {
    if n < 10 then [DigitChar(n)]
    else
      var t := NatToString(n / 10);
      var s := t + [DigitChar(n % 10)];
      assert s[..|s| - 1] == t;
      s
  }

  /** `Integer.toString(n)`. */
  function IntToString(n: int): (s: string)
  {
    if n < 0 then "-" + NatToString(-n) else NatToString(n)
  }

  /** What `Integer.toString` writes, `Integer.parseInt` reads back. */
  lemma ParseIntToString(n: Int32)
    ensures ParseInt(IntToString(n)) == Some(n)
  {
    var s := IntToString(n);
    if n < 0 {
      var m: nat := -(n as int);
      assert s[1..] == NatToString(m);
    } else {
      var t := NatToString(n);
      assert t[0] != '-' && t[0] != '+';
    }
  }

  /** The written form of an integer is a single trimmed field. */
  lemma IntToStringIsField(n: int)
    ensures IsTrimmed(IntToString(n)) && SEP !in IntToString(n)
    ensures IntToString(n) != [] && !IsBlank(IntToString(n))
  {
    var s := IntToString(n);
    var t := NatToString(if n < 0 then -n else n);
    assert IsDigit(t[|t| - 1]);
    assert s[|s| - 1] == t[|t| - 1];
    assert !IsWhitespace(s[|s| - 1]);
  }
}
