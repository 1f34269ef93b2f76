/**
 * String helpers the formatters are built from: JavaScript's `Number.prototype.toString`
 * for integers, `String.prototype.padStart(2, '0')`, `Array.prototype.join`, and the
 * decoding side (digit parsing and splitting at a separator) used to state round trips.
 */
module Text {
  import opened Wrappers

  /** True when every character of `s` is an ASCII decimal digit. */
  predicate IsDigits(s: string) {
    forall i :: 0 <= i < |s| ==> '0' <= s[i] <= '9'
  }

  function DigitChar(d: nat): (c: char)
    requires d < 10
    ensures '0' <= c <= '9'
    ensures c as int - '0' as int == d
  {
    ('0' as int + d) as char
  }

  function DigitValue(c: char): (d: nat)
    requires '0' <= c <= '9'
    ensures d < 10
  {
    c as int - '0' as int
  }

  /** Decimal value of a digit string; the empty string reads as 0. */
  function ParseNat(s: string): (n: nat)
    requires IsDigits(s)
  {
    if |s| == 0 then 0 else ParseNat(s[..|s| - 1]) * 10 + DigitValue(s[|s| - 1])
  }

  /** `n.toString()` for a non-negative integer: shortest decimal form, no leading zero. */
  function NatToDecimal(n: nat): (s: string)
    ensures 1 <= |s|
    ensures IsDigits(s)
  {
    if n < 10 then [DigitChar(n)] else NatToDecimal(n / 10) + [DigitChar(n % 10)]
  }

  /** `n.toString()` for any integer: a minus sign in front of the magnitude when negative. */
  function IntToDecimal(n: int): string {
    if n < 0 then "-" + NatToDecimal(-n) else NatToDecimal(n)
  }

  /** `s.padStart(2, '0')`: `s` with zeros added in front up to width two. */
  function PadStart2(s: string): string {
    if |s| == 0 then "00" else if |s| == 1 then "0" + s else s
  }

  /** `n.toString().padStart(2, '0')` for a non-negative `n`. */
  function Padded(n: nat): string {
    PadStart2(NatToDecimal(n))
  }

  /** `n.toString().padStart(2, '0')` for any integer `n`; a negative one is never padded. */
  function PaddedInt(n: int): string {
    PadStart2(IntToDecimal(n))
  }

  /** Reads an integer as `toString` prints it: digits, a minus sign in front when negative. */
  function ParseInt(s: string): Option<int> {
    if |s| >= 2 && s[0] == '-' && IsDigits(s[1..]) then Some(-(ParseNat(s[1..]) as int))
    else if |s| >= 1 && IsDigits(s) then Some(ParseNat(s))
    else None
  }

  /** `xs.join(sep)`. */
  function Join(xs: seq<string>, sep: string): string
  {
    if |xs| == 0 then ""
    else if |xs| == 1 then xs[0]
    else xs[0] + sep + Join(xs[1..], sep)
  }

  /** The index of the first `c` in `s`, or `|s|` when `s` holds none. */
  function FirstIndex(s: string, c: char): (i: nat)
    ensures i <= |s|
    ensures i < |s| ==> s[i] == c
    ensures forall j :: 0 <= j < i ==> s[j] != c
  {
    if |s| == 0 then 0
    else if s[0] == c then 0
    else 1 + FirstIndex(s[1..], c)
  }

  /** The pieces of `s` between occurrences of `c` (`s.split(c)`); never empty. */
  function SplitOn(s: string, c: char): (parts: seq<string>)
    ensures |parts| >= 1
    decreases |s|
  {
    var i := FirstIndex(s, c);
    if i == |s| then [s] else [s[..i]] + SplitOn(s[i + 1..], c)
  }

  /** Decimal printing and digit parsing are inverse to each other. */
  lemma {:induction false} DecimalRoundTrip(n: nat)
    ensures ParseNat(NatToDecimal(n)) == n
  {
    if n >= 10 {
      var s := NatToDecimal(n);
      assert s[..|s| - 1] == NatToDecimal(n / 10);
      DecimalRoundTrip(n / 10);
    }
  }

  /** Padding puts zeros in front of `s` up to width two and keeps `s` as the tail. */
  lemma PadStart2Spec(s: string)
    ensures var r := PadStart2(s);
      && |r| == (if |s| < 2 then 2 else |s|)
      && r[|r| - |s|..] == s
      && forall i :: 0 <= i < |r| - |s| ==> r[i] == '0'
  {
  }

  /** Decimal printing is the shortest form: one digit below ten, no leading zero. */
  lemma {:induction false} DecimalShortest(n: nat)
    ensures n < 10 <==> |NatToDecimal(n)| == 1
    ensures |NatToDecimal(n)| > 1 ==> NatToDecimal(n)[0] != '0'
  {
    if n >= 10 {
      DecimalShortest(n / 10);
    }
  }

  /** Numbers below 100 print in at most two digits. */
  lemma DecimalWidth(n: nat)
    requires n < 100
    ensures |NatToDecimal(n)| <= 2
  {
  }

  /** Leading zeros do not change the value a digit string reads as. */
  lemma {:induction false} LeadingZero(s: string)
    requires IsDigits(s)
    ensures IsDigits("0" + s)
    ensures ParseNat("0" + s) == ParseNat(s)
  {
    if |s| > 0 {
      assert ("0" + s)[..|"0" + s| - 1] == "0" + s[..|s| - 1];
      LeadingZero(s[..|s| - 1]);
    }
  }

  /** Zero padding to width two keeps the digits and their value. */
  lemma PaddedValue(n: nat)
    ensures IsDigits(Padded(n))
    ensures ParseNat(Padded(n)) == n
    ensures n < 100 ==> |Padded(n)| == 2
  {
    var s := NatToDecimal(n);
    DecimalRoundTrip(n);
    if |s| == 1 {
      LeadingZero(s);
    }
    if n < 100 {
      DecimalWidth(n);
    }
  }

  /**
   * A padded integer reads back as the integer, holds no colon or tab, and is the plain
   * two-digit padding when not negative.
   */
  lemma PaddedIntValue(n: int)
    ensures ParseInt(PaddedInt(n)) == Some(n)
    ensures ':' !in PaddedInt(n) && '\t' !in PaddedInt(n)
    ensures n >= 0 ==> PaddedInt(n) == Padded(n)
  {
    var s := PaddedInt(n);
    if n >= 0 {
      PaddedValue(n);
      assert s == Padded(n);
      assert ':' !in s && '\t' !in s by {
        forall k | 0 <= k < |s| ensures '0' <= s[k] <= '9' { }
      }
    } else {
      var d := NatToDecimal(-n);
      DecimalRoundTrip(-n);
      assert s == "-" + d;
      assert s[1..] == d;
      assert ':' !in s && '\t' !in s by {
        forall k | 1 <= k < |s| ensures '0' <= s[k] <= '9' { assert s[k] == d[k - 1]; }
      }
    }
  }

  /** Two two-digit strings with the same value are the same string. */
  lemma TwoDigitsUnique(a: string, b: string)
    requires IsDigits(a) && IsDigits(b) && |a| == 2 && |b| == 2
    requires ParseNat(a) == ParseNat(b)
    ensures a == b
  {
  }

  /** Splitting at `c` peels off a leading piece that holds no `c`. */
  lemma SplitFront(x: string, y: string, c: char)
    requires c !in x
    ensures SplitOn(x + [c] + y, c) == [x] + SplitOn(y, c)
  {
    var s := x + [c] + y;
    FirstIndexAfter(x, y, c);
    assert s[..|x|] == x;
    assert s[|x| + 1..] == y;
  }

  /** The first `c` of `x + [c] + y` is the one after `x` when `x` holds none. */
  lemma FirstIndexAfter(x: string, y: string, c: char)
    requires c !in x
    ensures FirstIndex(x + [c] + y, c) == |x|
  {
    assert (x + [c] + y)[|x|] == c;
  }

  /** A string holding no `c` is a single piece. */
  lemma SplitWhole(x: string, c: char)
    requires c !in x
    ensures SplitOn(x, c) == [x]
  {
  }
}
