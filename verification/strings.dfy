/**
 * Text helpers the schedule code relies on: decimal rendering of numbers
 * (`String(n)`), two-digit zero padding (`padStart(2, '0')`), substring search
 * (`includes`), and joining with a single space (`join(' ')`). Each rendering
 * function is paired with a parser that inverts it.
 */
module Strings {
  import opened Wrappers

  predicate IsDigit(c: char) {
    '0' <= c <= '9'
  }

  predicate AllDigits(s: string) {
    forall i :: 0 <= i < |s| ==> IsDigit(s[i])
  }

  function DigitValue(c: char): (v: nat)
    requires IsDigit(c)
    ensures v < 10
  {
    (c as int) - ('0' as int)
  }

  function DigitChar(v: nat): (c: char)
    requires v < 10
    ensures IsDigit(c) && DigitValue(c) == v
  {
    ((('0' as int) + v) as char)
  }

  /** The number a string of decimal digits denotes (most significant digit first). */
  function DigitsValue(s: string): nat
    requires AllDigits(s)
  {
    if s == [] then 0 else DigitsValue(s[..|s| - 1]) * 10 + DigitValue(s[|s| - 1])
  }

  /** `String(n)` for a non-negative integer: its shortest decimal rendering. */
  function NatToString(n: nat): (s: string)
    ensures |s| > 0 && AllDigits(s)
    ensures n < 10 <==> |s| == 1
    ensures 10 <= n < 100 <==> |s| == 2
    ensures s[0] == '0' ==> n == 0
  {
    if n < 10 then [DigitChar(n)] else NatToString(n / 10) + [DigitChar(n % 10)]
  }

  /**
   * `String(i)` for any integer: a leading minus sign for negative values and
   * never a padding zero in front of the digits.
   */
  function IntToString(i: int): (s: string)
    ensures |s| > 0
    ensures s[0] == '-' <==> i < 0
    ensures s[0] == '0' ==> i == 0
    ensures i < 0 ==> |s| >= 2 && IsDigit(s[1]) && s[1] != '0'
    ensures 0 <= i < 10 ==> |s| == 1
  {
    if i < 0 then "-" + NatToString(-i) else NatToString(i)
  }

  /** `String(n).padStart(2, '0')`: a single-digit rendering gains one leading zero. */
  function PadTwo(n: nat): (s: string)
    ensures AllDigits(s)
    ensures n < 100 ==> |s| == 2
    ensures n >= 100 ==> s == NatToString(n)
  {
    var digits := NatToString(n);
    if |digits| >= 2 then digits else "0" + digits
  }

  /** Reads a non-empty string of decimal digits; anything else is rejected. */
  function ParseNat(s: string): (r: Option<nat>)
    ensures r.Some? <==> (|s| > 0 && AllDigits(s))
  {
    if |s| > 0 && AllDigits(s) then Some(DigitsValue(s)) else None
  }

  /** Reads an optionally minus-signed decimal integer. */
  function ParseInt(s: string): Option<int> {
    if |s| > 0 && s[0] == '-' then
      match ParseNat(s[1..])
      case Some(n) => Some(-(n as int))
      case None => None
    else
      match ParseNat(s)
      case Some(n) => Some(n)
      case None => None
  }

  lemma {:induction false} NatToStringRoundTrip(n: nat)
    ensures ParseNat(NatToString(n)) == Some(n)
    decreases n
  {
    var s := NatToString(n);
    if n >= 10 {
      NatToStringRoundTrip(n / 10);
      var prefix := NatToString(n / 10);
      var last := DigitChar(n % 10);
      assert s == prefix + [last];
      assert s[..|s| - 1] == prefix;
      assert s[|s| - 1] == last;
      assert DigitsValue(prefix) == n / 10;
      assert DigitsValue(s) == DigitsValue(prefix) * 10 + DigitValue(last);
      assert DigitsValue(s) == n;
    } else {
      assert s[..0] == [];
      assert DigitsValue(s) == DigitValue(s[0]) == n;
    }
  }

  /** A leading zero does not change the value of a digit string. */
  lemma {:induction false} LeadingZeroValue(s: string)
    requires AllDigits(s)
    ensures AllDigits("0" + s) && DigitsValue("0" + s) == DigitsValue(s)
    decreases |s|
  {
    var t := "0" + s;
    assert AllDigits(t);
    if s != [] {
      LeadingZeroValue(s[..|s| - 1]);
      assert t[..|t| - 1] == "0" + s[..|s| - 1];
      assert t[|t| - 1] == s[|s| - 1];
    } else {
      assert t == ['0'];
      assert t[..0] == [];
    }
  }

  lemma PadTwoRoundTrip(n: nat)
    ensures ParseNat(PadTwo(n)) == Some(n)
  {
    NatToStringRoundTrip(n);
    var digits := NatToString(n);
    if |digits| < 2 {
      LeadingZeroValue(digits);
    }
  }

  lemma IntToStringRoundTrip(i: int)
    ensures ParseInt(IntToString(i)) == Some(i)
  {
    var s := IntToString(i);
    if i < 0 {
      NatToStringRoundTrip(-i);
      assert s[1..] == NatToString(-i);
    } else {
      NatToStringRoundTrip(i);
      assert IsDigit(s[0]);
    }
  }

  /** Distinct numbers render differently, so rendered numbers can serve as labels. */
  lemma NatToStringInjective(a: nat, b: nat)
    ensures NatToString(a) == NatToString(b) <==> a == b
  {
    NatToStringRoundTrip(a);
    NatToStringRoundTrip(b);
  }

  // ---------------------------------------------------------------------------
  // Substring search

  /** `pat` occurs in `s` starting at index `i`. */
  predicate OccursAt(s: string, pat: string, i: int) {
    0 <= i && i + |pat| <= |s| && s[i..i + |pat|] == pat
  }

  /** `s.includes(pat)`, computed by trying each start position in turn. */
  predicate Contains(s: string, pat: string)
    decreases |s|
  {
    pat <= s || (|s| > 0 && Contains(s[1..], pat))
  }

  /** An occurrence in the tail is an occurrence one place further on in the whole. */
  lemma OccursShift(s: string, pat: string, i: int)
    requires |s| > 0 && i >= 0
    ensures OccursAt(s[1..], pat, i) <==> OccursAt(s, pat, i + 1)
  {
    if 0 <= i && i + |pat| <= |s| - 1 {
      assert s[1..][i..i + |pat|] == s[i + 1..i + 1 + |pat|];
    }
  }

  lemma {:induction false} ContainsIffOccurs(s: string, pat: string)
    ensures Contains(s, pat) <==> exists i :: OccursAt(s, pat, i)
    decreases |s|
  {
    if pat <= s {
      assert s[0..|pat|] == pat;
      assert OccursAt(s, pat, 0);
    } else if |s| > 0 {
      ContainsIffOccurs(s[1..], pat);
      if Contains(s[1..], pat) {
        var i :| OccursAt(s[1..], pat, i);
        OccursShift(s, pat, i);
      }
      if i :| OccursAt(s, pat, i) && i > 0 {
        OccursShift(s, pat, i - 1);
      }
    }
  }

  // ---------------------------------------------------------------------------
  // Joining with a single space, and splitting it back

  /** The elements that are not the empty string, in order (`filter(Boolean)`). */
  function NonEmpty(parts: seq<string>): (r: seq<string>)
    ensures |r| <= |parts|
    ensures forall k :: 0 <= k < |r| ==> r[k] != ""
    ensures forall p :: p in parts && p != "" ==> p in r
    ensures forall p :: p in r ==> p in parts
  {
    if parts == [] then []
    else (if parts[0] == "" then [] else [parts[0]]) + NonEmpty(parts[1..])
  }

  /** `filter(Boolean)` tests the first part on its own, ahead of the rest. */
  lemma NonEmptyCons(x: string, rest: seq<string>)
    ensures NonEmpty([x] + rest) == (if x == "" then [] else [x]) + NonEmpty(rest)
  {
    var s := [x] + rest;
    assert s[0] == x;
    assert s[1..] == rest;
  }

  /** `parts.join(' ')`. */
  function JoinSpace(parts: seq<string>): string {
    if parts == [] then ""
    else if |parts| == 1 then parts[0]
    else parts[0] + " " + JoinSpace(parts[1..])
  }

  /** Cuts `s` at every space; the inverse of `JoinSpace` on space-free, non-empty parts. */
  function SplitSpace(s: string): seq<string>
    decreases |s|
  {
    if ' ' !in s then [s]
    else
      var i := FirstSpace(s);
      [s[..i]] + SplitSpace(s[i + 1..])
  }

  function FirstSpace(s: string): (i: nat)
    requires ' ' in s
    ensures i < |s| && s[i] == ' ' && ' ' !in s[..i]
  {
    if s[0] == ' ' then 0
    else
      assert ' ' in s[1..] by {
        var k :| 0 <= k < |s| && s[k] == ' ';
        assert s[1..][k - 1] == ' ';
      }
      var j := FirstSpace(s[1..]);
      assert s[..j + 1] == [s[0]] + s[1..][..j];
      j + 1
  }

  /** In `a + " " + rest`, with no space in `a`, the first space is the separator. */
  lemma {:induction false} FirstSpaceAfter(a: string, rest: string)
    requires ' ' !in a
    ensures ' ' in a + " " + rest
    ensures FirstSpace(a + " " + rest) == |a|
    decreases |a|
  {
    var s := a + " " + rest;
    assert s[|a|] == ' ';
    if a != [] {
      assert s[1..] == a[1..] + " " + rest;
      FirstSpaceAfter(a[1..], rest);
    }
  }

  /** Splitting `a + " " + rest`, with no space in `a`, yields `a` and then the pieces of `rest`. */
  lemma SplitAtSeparator(a: string, rest: string)
    requires ' ' !in a
    ensures SplitSpace(a + " " + rest) == [a] + SplitSpace(rest)
  {
    var s := a + " " + rest;
    FirstSpaceAfter(a, rest);
    assert s[..|a|] == a;
    assert s[|a| + 1..] == rest;
  }

  lemma {:induction false} SplitJoinRoundTrip(parts: seq<string>)
    requires |parts| > 0
    requires forall k :: 0 <= k < |parts| ==> parts[k] != "" && ' ' !in parts[k]
    ensures SplitSpace(JoinSpace(parts)) == parts
    decreases |parts|
  {
    if |parts| == 1 {
      assert JoinSpace(parts) == parts[0];
      assert SplitSpace(parts[0]) == [parts[0]];
    } else {
      var rest := JoinSpace(parts[1..]);
      assert JoinSpace(parts) == parts[0] + " " + rest;
      SplitAtSeparator(parts[0], rest);
      SplitJoinRoundTrip(parts[1..]);
      assert parts == [parts[0]] + parts[1..];
    }
  }
}
