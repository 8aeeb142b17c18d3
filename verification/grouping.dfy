/**
 * Python's `'{:,}'.format(n)` for a non-negative integer: the decimal
 * digits of n with a comma between every group of three, counted from the right.
 */
module Grouping {
  import opened Wrappers

  predicate IsDigit(c: char)
  {
    '0' <= c <= '9'
  }

  predicate IsDigitString(s: string)
  {
    forall i :: 0 <= i < |s| ==> IsDigit(s[i])
  }

  function DigitChar(d: nat): (c: char)
    requires d < 10
    ensures IsDigit(c) && c as int - '0' as int == d
  {
    ('0' as int + d) as char
  }

  /** `str(n)`: decimal digits, no sign, no leading zero except for 0 itself. */
  function Digits(n: nat): (s: string)
    ensures 1 <= |s| && IsDigitString(s)
    ensures n > 0 ==> s[0] != '0'
    ensures |s| > 1 ==> s[0] != '0'
    decreases n
  {
    if n < 10 then [DigitChar(n)] else Digits(n / 10) + [DigitChar(n % 10)]
  }

  /** The number a digit string denotes (the reading `int(s)` performs). */
  function DigitsValue(s: string): nat
    requires IsDigitString(s)
    decreases |s|
  {
    if |s| == 0 then 0
    else DigitsValue(s[..|s| - 1]) * 10 + (s[|s| - 1] as int - '0' as int)
  }

  /** Reading the digits back gives the number. */
  lemma {:induction false} DigitsRoundTrip(n: nat)
    ensures DigitsValue(Digits(n)) == n
    decreases n
  {
    if n >= 10 {
      DigitsRoundTrip(n / 10);
      var s := Digits(n);
      assert s[..|s| - 1] == Digits(n / 10);
    }
  }

  /** A larger number never has fewer digits. */
  lemma {:induction false} DigitsLengthMonotone(n: nat, m: nat)
    requires n <= m
    ensures |Digits(n)| <= |Digits(m)|
    decreases n
  {
    if n >= 10 {
      DigitsLengthMonotone(n / 10, m / 10);
    }
  }

  /** Inserts the thousands separators into a digit string, from the right. */
  function InsertCommas(d: string): (s: string)
    requires IsDigitString(d)
    ensures |d| >= 1 ==> |s| == |d| + (|d| - 1) / 3
    ensures forall i :: 0 <= i < |s| ==> (s[i] == ',' || IsDigit(s[i]))
    decreases |d|
  {
    if |d| <= 3 then d
    else InsertCommas(d[..|d| - 3]) + "," + d[|d| - 3..]
  }

  /** The separators go between digits, so the grouped form starts with the first digit. */
  lemma {:induction false} InsertCommasHead(d: string)
    requires IsDigitString(d) && |d| >= 1
    ensures |InsertCommas(d)| >= 1 && InsertCommas(d)[0] == d[0]
    decreases |d|
  {
    if |d| > 3 {
      InsertCommasHead(d[..|d| - 3]);
    }
  }

  /**
   * A comma sits at exactly the positions with a multiple of four characters
   * from there to the end: every comma is followed by a group of three digits
   * and the leading group holds one to three digits.
   */
  predicate CommasEveryThreeDigits(s: string)
  {
    forall i :: 0 <= i < |s| ==> (s[i] == ',' <==> (|s| - i) % 4 == 0)
  }

  /** Adding four keeps the remainder modulo 4; one to three are not multiples of 4. */
  lemma ModFour(a: nat)
    ensures (a + 4) % 4 == a % 4
    ensures a < 3 ==> (a + 1) % 4 != 0
  {
  }

  lemma {:induction false} InsertCommasPositions(d: string)
    requires IsDigitString(d)
    ensures CommasEveryThreeDigits(InsertCommas(d))
    decreases |d|
  {
    var s := InsertCommas(d);
    if |d| > 3 {
      var head := InsertCommas(d[..|d| - 3]);
      InsertCommasPositions(d[..|d| - 3]);
      var tail := d[|d| - 3..];
      assert s == head + "," + tail;
      assert |s| == |head| + 4;
      forall i | 0 <= i < |s|
        ensures s[i] == ',' <==> (|s| - i) % 4 == 0
      {
        if i < |head| {
          assert s[i] == head[i];
          assert head[i] == ',' <==> (|head| - i) % 4 == 0;
          ModFour(|head| - i);
        } else if i > |head| {
          assert s[i] == tail[i - |head| - 1];
          assert IsDigit(s[i]);
          ModFour(|s| - i - 1);
        } else {
          assert s[i] == ',';
        }
      }
    }
  }

  /** Removes every comma. */
  function RemoveCommas(s: string): (t: string)
    ensures forall i :: 0 <= i < |t| ==> t[i] != ','
    decreases |s|
  {
    if |s| == 0 then ""
    else if s[|s| - 1] == ',' then RemoveCommas(s[..|s| - 1])
    else RemoveCommas(s[..|s| - 1]) + [s[|s| - 1]]
  }

  lemma {:induction false} RemoveCommasAppend(a: string, b: string)
    ensures RemoveCommas(a + b) == RemoveCommas(a) + RemoveCommas(b)
    decreases |b|
  {
    if |b| == 0 {
      assert a + b == a;
    } else {
      RemoveCommasAppend(a, b[..|b| - 1]);
      assert (a + b)[..|a + b| - 1] == a + b[..|b| - 1];
    }
  }

  lemma {:induction false} RemoveCommasOfDigits(d: string)
    requires IsDigitString(d)
    ensures RemoveCommas(d) == d
    decreases |d|
  {
    if |d| > 0 {
      RemoveCommasOfDigits(d[..|d| - 1]);
      assert d[..|d| - 1] + [d[|d| - 1]] == d;
    }
  }

  /** Dropping the separators gives the digits back. */
  lemma {:induction false} InsertCommasRoundTrip(d: string)
    requires IsDigitString(d)
    ensures RemoveCommas(InsertCommas(d)) == d
    decreases |d|
  {
    if |d| <= 3 {
      RemoveCommasOfDigits(d);
    } else {
      var head := d[..|d| - 3];
      var tail := d[|d| - 3..];
      InsertCommasRoundTrip(head);
      RemoveCommasAppend(InsertCommas(head) + ",", tail);
      RemoveCommasAppend(InsertCommas(head), ",");
      assert RemoveCommas(",") == "" by {
        assert ","[..0] == "";
      }
      RemoveCommasOfDigits(tail);
      assert head + tail == d;
    }
  }

  /** `'{:,}'.format(n)`. */
  function Group(n: nat): string
  {
    InsertCommas(Digits(n))
  }

  /** Reads a grouped count back: `int(s.replace(',', ''))` for a string of digits and commas. */
  function ParseGrouped(s: string): Option<nat>
  {
    var d := RemoveCommas(s);
    if |d| > 0 && IsDigitString(d) then Some(DigitsValue(d)) else None
  }

  /**
   * The grouped form is a faithful rendering: it is non-empty, starts with
   * the leading digit of `str(n)` (so never with a zero, except "0" itself),
   * its commas sit every three digits from the right, and it reads back as n.
   */
  lemma GroupRoundTrip(n: nat)
    ensures 1 <= |Group(n)| && IsDigit(Group(n)[0])
    ensures CommasEveryThreeDigits(Group(n))
    ensures ParseGrouped(Group(n)) == Some(n)
    ensures Group(n)[0] == Digits(n)[0]
    ensures |Group(n)| > 1 ==> Group(n)[0] != '0'
  {
    InsertCommasHead(Digits(n));
    InsertCommasRoundTrip(Digits(n));
    InsertCommasPositions(Digits(n));
    DigitsRoundTrip(n);
    var s := Group(n);
    assert s[0] != ',' by {
      assert (|s| - 0) % 4 != 0;
    }
  }

  /** The grouped width grows with the number: the widest grouped value is that of the largest. */
  lemma GroupWidthMonotone(n: nat, m: nat)
    requires n <= m
    ensures |Group(n)| <= |Group(m)|
  {
    DigitsLengthMonotone(n, m);
  }
}
