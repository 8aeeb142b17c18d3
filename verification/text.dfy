/**
 * String helpers shared by the release ordering and the bar graph:
 * Python's ordering on `str`, the padding done by `str.format` widths,
 * slicing, repetition and `'\n'.join` / `str.split('\n')`.
 */
module Text {

  /** Python's `a < b` on strings: lexicographic by code point, a proper prefix sorts first. */
  predicate Less(a: string, b: string)
    decreases |a|
  {
    if |a| == 0 then |b| > 0
    else if |b| == 0 then false
    else if a[0] != b[0] then a[0] < b[0]
    else Less(a[1..], b[1..])
  }

  /** Python's `a <= b` on strings. */
  predicate LessEq(a: string, b: string)
  {
    !Less(b, a)
  }

  lemma {:induction false} LessIrreflexive(a: string)
    ensures !Less(a, a)
    decreases |a|
  {
    if |a| > 0 {
      LessIrreflexive(a[1..]);
    }
  }

  lemma {:induction false} LessTransitive(a: string, b: string, c: string)
    requires Less(a, b) && Less(b, c)
    ensures Less(a, c)
    decreases |a|
  {
    if |a| > 0 && a[0] == b[0] && b[0] == c[0] {
      LessTransitive(a[1..], b[1..], c[1..]);
    }
  }

  /** Any two strings are equal or ordered one way or the other. */
  lemma {:induction false} LessTrichotomous(a: string, b: string)
    ensures a == b || Less(a, b) || Less(b, a)
    decreases |a|
  {
    if |a| > 0 && |b| > 0 && a[0] == b[0] {
      LessTrichotomous(a[1..], b[1..]);
      if a[1..] == b[1..] {
        assert a == [a[0]] + a[1..] && b == [b[0]] + b[1..];
      }
    }
  }

  lemma {:induction false} LessAsymmetric(a: string, b: string)
    requires Less(a, b)
    ensures !Less(b, a)
  {
    if Less(b, a) {
      LessTransitive(a, b, a);
      LessIrreflexive(a);
    }
  }

  /** `<=` on strings is a total order: total, antisymmetric and transitive. */
  lemma LessEqTotalOrder(a: string, b: string, c: string)
    ensures LessEq(a, b) || LessEq(b, a)
    ensures LessEq(a, b) && LessEq(b, a) ==> a == b
    ensures LessEq(a, b) && LessEq(b, c) ==> LessEq(a, c)
  {
    LessTrichotomous(a, b);
    if Less(a, b) {
      LessAsymmetric(a, b);
    }
    if LessEq(a, b) && LessEq(b, c) && Less(c, a) {
      LessTrichotomous(b, c);
      LessTrichotomous(a, b);
      if Less(b, c) {
        LessTransitive(b, c, a);
      } else if Less(a, b) {
        LessTransitive(c, a, b);
      } else {
        LessIrreflexive(a);
      }
    }
  }

  /** `c * n` in Python: n copies of c. */
  function Repeat(c: char, n: nat): (s: string)
    ensures |s| == n
    ensures forall i :: 0 <= i < n ==> s[i] == c
  {
    seq(n, _ => c)
  }

  /** `s[:n]` in Python, for n >= 0. */
  function Take(s: string, n: nat): (t: string)
    ensures |t| <= n && t <= s
    ensures |s| <= n ==> t == s
    ensures |s| > n ==> |t| == n
  {
    if |s| <= n then s else s[..n]
  }

  /** `'{:w}'.format(s)` for a string: left-aligned, space-padded to at least w characters. */
  function PadRight(s: string, w: nat): (t: string)
    ensures |s| <= w ==> |t| == w
    ensures s <= t
    ensures forall i :: |s| <= i < |t| ==> t[i] == ' '
  {
    if |s| < w then s + Repeat(' ', w - |s|) else s
  }

  /** `'{:w}'.format(n)` for a number already rendered as s: right-aligned, space-padded. */
  function PadLeft(s: string, w: nat): (t: string)
    ensures |s| <= w ==> |t| == w
    ensures |s| <= |t| && t[|t| - |s|..] == s
    ensures forall i :: 0 <= i < |t| - |s| ==> t[i] == ' '
  {
    if |s| < w then Repeat(' ', w - |s|) + s else s
  }

  /** Drops leading spaces. */
  function TrimLeft(s: string): (t: string)
    ensures |t| <= |s| && t == s[|s| - |t|..]
    ensures |t| > 0 ==> t[0] != ' '
    ensures forall i :: 0 <= i < |s| - |t| ==> s[i] == ' '
    decreases |s|
  {
    if |s| > 0 && s[0] == ' ' then TrimLeft(s[1..]) else s
  }

  /** Trimming the padding off a right-aligned field gives back its content. */
  lemma TrimPadLeft(s: string, w: nat)
    requires |s| > 0 && s[0] != ' '
    ensures TrimLeft(PadLeft(s, w)) == s
  {
  }

  predicate NoNewline(s: string)
  {
    forall i :: 0 <= i < |s| ==> s[i] != '\n'
  }

  lemma NoNewlineConcat(a: string, b: string)
    requires NoNewline(a) && NoNewline(b)
    ensures NoNewline(a + b)
  {
    assert forall i :: |a| <= i < |a + b| ==> (a + b)[i] == b[i - |a|];
  }

  /** `'\n'.join(lines)`. */
  function Join(lines: seq<string>): string
    decreases |lines|
  {
    if |lines| == 0 then ""
    else if |lines| == 1 then lines[0]
    else lines[0] + "\n" + Join(lines[1..])
  }

  /** `s.split('\n')`: the pieces between newlines, always at least one. */
  function Split(s: string): (pieces: seq<string>)
    ensures |pieces| >= 1
    ensures forall i :: 0 <= i < |pieces| ==> NoNewline(pieces[i])
    decreases |s|
  {
    if |s| == 0 then [""]
    else if s[0] == '\n' then [""] + Split(s[1..])
    else
      var rest := Split(s[1..]);
      [[s[0]] + rest[0]] + rest[1..]
  }

  lemma {:induction false} SplitLine(line: string, rest: string)
    requires NoNewline(line)
    ensures Split(line) == [line]
    ensures Split(line + "\n" + rest) == [line] + Split(rest)
    decreases |line|
  {
    if |line| > 0 {
      SplitLine(line[1..], rest);
      assert (line + "\n" + rest)[1..] == line[1..] + "\n" + rest;
      assert [line[0]] + line[1..] == line;
    } else {
      assert line + "\n" + rest == "\n" + rest;
      assert ("\n" + rest)[1..] == rest;
    }
  }

  /** Splitting the joined lines gives back exactly the lines, when none holds a newline. */
  lemma {:induction false} SplitJoin(lines: seq<string>)
    requires |lines| >= 1
    requires forall i :: 0 <= i < |lines| ==> NoNewline(lines[i])
    ensures Split(Join(lines)) == lines
    decreases |lines|
  {
    if |lines| == 1 {
      SplitLine(lines[0], "");
    } else {
      SplitJoin(lines[1..]);
      SplitLine(lines[0], Join(lines[1..]));
      assert [lines[0]] + lines[1..] == lines;
    }
  }
}
