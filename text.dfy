/** The JavaScript string operations the components rely on:
    `toLowerCase` (restricted to ASCII), `String.prototype.includes`,
    and the decimal rendering of an integral number inside a template
    literal, together with a parser that reads such a rendering back. */
module Text {
  import opened Wrappers

  // ---------------------------------------------------------------------
  // toLowerCase, ASCII only

  function LowerChar(c: char): char {
    if 'A' <= c <= 'Z' then (c as int + 32) as char else c
  }

  /** `s.toLowerCase()`: every ASCII capital becomes its small letter and
      every other character is kept, so no ASCII capital is left. */
  function Lower(s: string): (r: string)
    ensures |r| == |s|
    ensures forall i :: 0 <= i < |s| && 'A' <= s[i] <= 'Z' ==> r[i] as int == s[i] as int + 32
    ensures forall i :: 0 <= i < |s| && !('A' <= s[i] <= 'Z') ==> r[i] == s[i]
    ensures forall i :: 0 <= i < |r| ==> !('A' <= r[i] <= 'Z')
  {
    seq(|s|, i requires 0 <= i < |s| => LowerChar(s[i]))
  }

  /** `s.length`: JavaScript counts UTF-16 code units, so a character
      outside the Basic Multilingual Plane (a surrogate pair) counts twice. */
  function Utf16Length(s: string): (n: nat)
    ensures |s| <= n <= 2 * |s|
    ensures (forall i :: 0 <= i < |s| ==> s[i] as int < 0x1_0000) ==> n == |s|
  {
    if s == [] then 0
    else (if s[0] as int >= 0x1_0000 then 2 else 1) + Utf16Length(s[1..])
  }

  /** A string made only of characters outside the Basic Multilingual
      Plane is twice as long in UTF-16 code units as in characters. */
  lemma {:induction false} Utf16LengthAllAstral(s: string)
    requires forall i :: 0 <= i < |s| ==> s[i] as int >= 0x1_0000
    ensures Utf16Length(s) == 2 * |s|
  {
    if s != [] {
      Utf16LengthAllAstral(s[1..]);
    }
  }

  /** The length of a concatenation is the sum of the lengths. */
  lemma {:induction false} Utf16LengthAppend(a: string, b: string)
    ensures Utf16Length(a + b) == Utf16Length(a) + Utf16Length(b)
  {
    if a != [] {
      assert (a + b)[0] == a[0];
      assert (a + b)[1..] == a[1..] + b;
      Utf16LengthAppend(a[1..], b);
    } else {
      assert a + b == b;
    }
  }

  // ---------------------------------------------------------------------
  // String.prototype.includes

  /** `needle` occurs in `haystack` starting at index `i`. */
  ghost predicate OccursAt(haystack: string, needle: string, i: int) {
    0 <= i && i + |needle| <= |haystack| && haystack[i..i + |needle|] == needle
  }

  /** `haystack.includes(needle)`, searching left to right. */
  function Includes(haystack: string, needle: string): (found: bool)
    ensures needle == [] ==> found
    ensures |needle| <= |haystack| && haystack[..|needle|] == needle ==> found
    ensures found ==> |needle| <= |haystack|
    decreases |haystack|
  {
    if |needle| > |haystack| then false
    else if haystack[..|needle|] == needle then true
    else Includes(haystack[1..], needle)
  }

  /** The search finds `needle` exactly when it occurs somewhere. */
  lemma {:induction false} IncludesIffOccurs(haystack: string, needle: string)
    ensures Includes(haystack, needle) <==> exists i :: OccursAt(haystack, needle, i)
    decreases |haystack|
  {
    if |needle| > |haystack| {
      assert forall i :: !OccursAt(haystack, needle, i);
    } else if haystack[..|needle|] == needle {
      assert OccursAt(haystack, needle, 0);
    } else {
      var tail := haystack[1..];
      IncludesIffOccurs(tail, needle);
      if Includes(tail, needle) {
        var j :| OccursAt(tail, needle, j);
        assert haystack[j + 1..j + 1 + |needle|] == tail[j..j + |needle|];
        assert OccursAt(haystack, needle, j + 1);
      } else {
        forall i | OccursAt(haystack, needle, i)
          ensures false
        {
          assert i != 0;
          assert tail[i - 1..i - 1 + |needle|] == haystack[i..i + |needle|];
          assert OccursAt(tail, needle, i - 1);
        }
      }
    }
  }

  // ---------------------------------------------------------------------
  // Number to string, as a template literal renders an integral number

  predicate IsDigit(c: char) {
    '0' <= c <= '9'
  }

  predicate AllDigits(s: string) {
    forall i :: 0 <= i < |s| ==> IsDigit(s[i])
  }

  function DigitChar(d: int): (c: char)
    requires 0 <= d < 10
    ensures IsDigit(c)
  {
    (48 + d) as char
  }

  function DigitValue(c: char): (d: nat)
    requires IsDigit(c)
    ensures d < 10
  {
    c as int - 48
  }

  /** The decimal digits of `n`, most significant first, without leading zeros. */
  function NatToString(n: nat): (s: string)
    ensures |s| >= 1 && AllDigits(s)
  {
    if n < 10 then [DigitChar(n)] else NatToString(n / 10) + [DigitChar(n % 10)]
  }

  /** `${n}` for an integral number `n`: decimal digits, preceded by `-`
      exactly when `n` is negative. */
  function IntToString(n: int): (s: string)
    ensures |s| >= 1
    ensures forall i :: 0 <= i < |s| ==> s[i] != ' '
    ensures n >= 0 <==> AllDigits(s)
    ensures n < 0 ==> |s| >= 2 && s[0] == '-' && AllDigits(s[1..])
  {
    if n < 0 then
      var s := "-" + NatToString(-n);
      assert !IsDigit(s[0]) && s[1..] == NatToString(-n);
      s
    else NatToString(n)
  }

  /** The value of a string of decimal digits. */
  function DigitsValue(s: string): nat
    requires AllDigits(s)
  {
    if s == [] then 0 else DigitsValue(s[..|s| - 1]) * 10 + DigitValue(s[|s| - 1])
  }

  /** Reads back a non-empty run of digits, optionally preceded by `-`. */
  function ParseInt(s: string): Option<int> {
    if |s| >= 2 && s[0] == '-' && AllDigits(s[1..]) then Some(0 - DigitsValue(s[1..]) as int)
    else if |s| >= 1 && AllDigits(s) then Some(DigitsValue(s) as int)
    else None
  }

  lemma {:induction false} NatToStringValue(n: nat)
    ensures DigitsValue(NatToString(n)) == n
  {
    if n >= 10 {
      var s := NatToString(n);
      NatToStringValue(n / 10);
      assert s[..|s| - 1] == NatToString(n / 10);
    }
  }

  /** Rendering an integer and reading it back gives the integer. */
  lemma IntToStringRoundTrip(n: int)
    ensures ParseInt(IntToString(n)) == Some(n)
  {
    if n < 0 {
      NatToStringValue(-n);
      assert IntToString(n)[1..] == NatToString(-n);
    } else {
      NatToStringValue(n);
    }
  }

  // ---------------------------------------------------------------------
  // Prefixes and splitting at the first space

  predicate StartsWith(s: string, prefix: string) {
    |s| >= |prefix| && s[..|prefix|] == prefix
  }

  /** The parts before and after the first space of `s`, if it has one. */
  function SplitAtSpace(s: string): Option<(string, string)> {
    if s == [] then None
    else if s[0] == ' ' then Some(([], s[1..]))
    else match SplitAtSpace(s[1..])
      case Some((a, b)) => Some(([s[0]] + a, b))
      case None => None
  }

  lemma {:induction false} SplitAtSpaceJoin(a: string, b: string)
    requires forall i :: 0 <= i < |a| ==> a[i] != ' '
    ensures SplitAtSpace(a + " " + b) == Some((a, b))
  {
    if a != [] {
      assert (a + " " + b)[1..] == a[1..] + " " + b;
      SplitAtSpaceJoin(a[1..], b);
      assert [a[0]] + a[1..] == a;
    }
  }
}
