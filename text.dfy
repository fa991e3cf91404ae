/** The handful of Python string operations the scripts rely on, with the
    semantics of CPython's str methods and int(): strip, lower, split,
    splitlines, file line iteration, "".join, and decimal conversion. */
module Text {
  import opened Base

  // ---------------------------------------------------------------------
  // Characters

  /** str.isspace(): the characters strip() removes and \s matches. */
  predicate IsSpace(c: char) {
    var n := c as int;
    (9 <= n <= 13) || (28 <= n <= 32) || n == 0x85 || n == 0xA0 || n == 0x1680
    || (0x2000 <= n <= 0x200A) || n == 0x2028 || n == 0x2029 || n == 0x202F
    || n == 0x205F || n == 0x3000
  }

  /** The line boundaries of str.splitlines() (\r\n is handled as one). */
  predicate IsLineBreak(c: char) {
    var n := c as int;
    (10 <= n <= 13) || (28 <= n <= 30) || n == 0x85 || n == 0x2028 || n == 0x2029
  }

  predicate IsDigit(c: char) {
    '0' as int <= c as int <= '9' as int
  }

  /** Lower-casing, restricted to ASCII letters. */
  function LowerChar(c: char): char {
    if 'A' <= c <= 'Z' then (c as int + 32) as char else c
  }

  function Lower(s: string): (r: string)
    ensures |r| == |s|
    ensures forall i :: 0 <= i < |s| ==> r[i] == LowerChar(s[i])
  {
    seq(|s|, i requires 0 <= i < |s| => LowerChar(s[i]))
  }

  // ---------------------------------------------------------------------
  // Prefixes, suffixes, substrings

  predicate StartsWith(s: string, p: string) {
    |p| <= |s| && s[..|p|] == p
  }

  predicate EndsWith(s: string, p: string) {
    |p| <= |s| && s[|s| - |p|..] == p
  }

  /** p stands in s at position i. */
  predicate OccursAt(s: string, p: string, i: int) {
    0 <= i && i + |p| <= |s| && s[i..i + |p|] == p
  }

  /** Python's `p in s` for strings. */
  predicate Contains(s: string, p: string) {
    exists i | 0 <= i <= |s| - |p| :: OccursAt(s, p, i)
  }

  /** A case-insensitive occurrence of p at position i of s. */
  predicate MatchesCIAt(s: string, i: int, p: string) {
    0 <= i && i + |p| <= |s| && Lower(s[i..i + |p|]) == Lower(p)
  }

  // ---------------------------------------------------------------------
  // strip(), lstrip(c)

  function LStrip(s: string): (r: string)
    ensures |r| <= |s| && r == s[|s| - |r|..]
    ensures r == [] || !IsSpace(r[0])
    ensures forall i :: 0 <= i < |s| - |r| ==> IsSpace(s[i])
    decreases |s|
  {
    if s != [] && IsSpace(s[0]) then LStrip(s[1..]) else s
  }

  function RStrip(s: string): (r: string)
    ensures |r| <= |s| && r == s[..|r|]
    ensures r == [] || !IsSpace(r[|r| - 1])
    ensures forall i :: |r| <= i < |s| ==> IsSpace(s[i])
    decreases |s|
  {
    if s != [] && IsSpace(s[|s| - 1]) then RStrip(s[..|s| - 1]) else s
  }

  /** str.strip(): leading whitespace dropped one character at a time,
      then trailing whitespace. Its properties are in StripShape, so that
      the many terms mentioning it cost nothing unless a proof asks. */
  function Strip(s: string): string
    decreases |s|
  {
    if s != [] && IsSpace(s[0]) then Strip(s[1..]) else RStrip(s)
  }

  /** The result of strip() is blank exactly when the input is all
      whitespace; otherwise it neither starts nor ends with whitespace; an
      input with no whitespace is its own strip. */
  lemma {:induction false} StripShape(s: string)
    ensures Strip(s) == [] || (!IsSpace(Strip(s)[0]) && !IsSpace(Strip(s)[|Strip(s)| - 1]))
    ensures Strip(s) == [] <==> forall i :: 0 <= i < |s| ==> IsSpace(s[i])
    ensures (forall i :: 0 <= i < |s| ==> !IsSpace(s[i])) ==> Strip(s) == s
    decreases |s|
  {
    if s != [] && IsSpace(s[0]) {
      StripShape(s[1..]);
      assert forall i :: 1 <= i < |s| ==> s[i] == s[1..][i - 1];
    } else {
      var r := RStrip(s);
      if s != [] {
        if r == [] {
          assert false;
        }
        assert r[0] == s[0];
      }
    }
  }

  /** strip() equals lstrip() followed by rstrip(). */
  lemma {:induction false} StripIsLStripRStrip(s: string)
    ensures Strip(s) == RStrip(LStrip(s))
    decreases |s|
  {
    if s != [] && IsSpace(s[0]) {
      StripIsLStripRStrip(s[1..]);
    }
  }

  /** str.lstrip(c) for a one-character argument. */
  function LStripChar(s: string, c: char): (r: string)
    ensures |r| <= |s| && r == s[|s| - |r|..]
    ensures r == [] || r[0] != c
    decreases |s|
  {
    if s != [] && s[0] == c then LStripChar(s[1..], c) else s
  }

  // ---------------------------------------------------------------------
  // split(c), splitlines(), file lines, join

  /** str.split(c) for a one-character separator: never empty. */
  function Split(s: string, c: char): (r: seq<string>)
    ensures |r| >= 1
    decreases |s|
  {
    if |s| == 0 then [""]
    else if s[0] == c then [""] + Split(s[1..], c)
    else
      var rest := Split(s[1..], c);
      [[s[0]] + rest[0]] + rest[1..]
  }

  function SplitLinesFrom(s: string, cur: string): seq<string>
    decreases |s|
  {
    if s == [] then (if cur == [] then [] else [cur])
    else if s[0] == '\r' && |s| > 1 && s[1] == '\n' then [cur] + SplitLinesFrom(s[2..], [])
    else if IsLineBreak(s[0]) then [cur] + SplitLinesFrom(s[1..], [])
    else SplitLinesFrom(s[1..], cur + [s[0]])
  }

  /** str.splitlines(): no terminators kept, no empty line after a final break. */
  function SplitLines(s: string): seq<string> {
    SplitLinesFrom(s, [])
  }

  function LinesFrom(s: string, cur: string): seq<string>
    decreases |s|
  {
    if s == [] then (if cur == [] then [] else [cur])
    else if s[0] == '\n' then [cur + "\n"] + LinesFrom(s[1..], [])
    else LinesFrom(s[1..], cur + [s[0]])
  }

  /** The lines of an open text file (iteration or readlines()): each keeps
      its "\n", the last one may lack it. */
  function Lines(s: string): seq<string> {
    LinesFrom(s, [])
  }

  /** "".join(ss) */
  function Concat(ss: seq<string>): string {
    if ss == [] then "" else ss[0] + Concat(ss[1..])
  }

  // ---------------------------------------------------------------------
  // Decimal conversion: str(n) and int(s)

  function DigitChar(d: nat): char
    requires d < 10
  {
    ('0' as int + d) as char
  }

  function NatToString(n: nat): (r: string)
    ensures |r| >= 1
    ensures forall i :: 0 <= i < |r| ==> IsDigit(r[i])
  {
    if n < 10 then [DigitChar(n)] else NatToString(n / 10) + [DigitChar(n % 10)]
  }

  /** str(i) for an int. */
  function IntToString(i: int): string {
    if i < 0 then "-" + NatToString(-i) else NatToString(i)
  }

  /** Digits with single underscores between them, as int() accepts. */
  predicate ValidDigits(s: string) {
    && |s| > 0 && IsDigit(s[0]) && IsDigit(s[|s| - 1])
    && (forall i :: 0 <= i < |s| ==> IsDigit(s[i]) || s[i] == '_')
    && (forall i :: 0 <= i < |s| - 1 ==> NotDoubled(s, i))
  }

  /** No underscore at i is followed by another. */
  predicate NotDoubled(s: string, i: int)
    requires 0 <= i < |s| - 1
  {
    s[i] == '_' ==> s[i + 1] != '_'
  }

  function DigitsValue(s: string): nat {
    if s == [] then 0
    else
      var c := s[|s| - 1];
      var v := DigitsValue(s[..|s| - 1]);
      if IsDigit(c) then v * 10 + (c as int - '0' as int) else v
  }

  /** int(s) in base 10: surrounding whitespace, an optional sign, then
      digits; None stands for the ValueError int() raises. */
  function ParseInt(s: string): Option<int> {
    ParseNumeral(Strip(s))
  }

  /** The part of int() that reads an already stripped numeral. */
  function ParseNumeral(t: string): Option<int> {
    if |t| > 0 && (t[0] == '-' || t[0] == '+') then
      if ValidDigits(t[1..]) then
        var v: int := DigitsValue(t[1..]);
        Some(if t[0] == '-' then -v else v)
      else None
    else if ValidDigits(t) then Some(DigitsValue(t))
    else None
  }

  function Pow10(k: nat): (r: nat)
    ensures r >= 1
  {
    if k == 0 then 1 else 10 * Pow10(k - 1)
  }

  /** Pads s with spaces on the right to width w (format spec `<w`). */
  function PadRight(s: string, w: nat): (r: string)
    ensures |r| == if |s| >= w then |s| else w
    ensures r[..|s|] == s
  {
    if |s| >= w then s else s + seq(w - |s|, _ => ' ')
  }

  /** Pads s with spaces on the left to width w (format spec `>w`). */
  function PadLeft(s: string, w: nat): (r: string)
    ensures |r| == if |s| >= w then |s| else w
    ensures r[|r| - |s|..] == s
  {
    if |s| >= w then s else seq(w - |s|, _ => ' ') + s
  }

  // ---------------------------------------------------------------------
  // Lemmas

  /** Writing back the lines read from a file reproduces it. */
  lemma {:induction false} LinesRoundTrip(s: string)
    ensures Concat(Lines(s)) == s
  {
    LinesFromConcat(s, []);
  }

  lemma {:induction false} LinesFromConcat(s: string, cur: string)
    ensures Concat(LinesFrom(s, cur)) == cur + s
    decreases |s|
  {
    if s == [] {
    } else if s[0] == '\n' {
      LinesFromConcat(s[1..], []);
      assert cur + s == (cur + "\n") + s[1..];
    } else {
      LinesFromConcat(s[1..], cur + [s[0]]);
      assert (cur + [s[0]]) + s[1..] == cur + s;
    }
  }

  /** Every line of a file stands somewhere in its text. */
  lemma {:induction false} LineOccurs(s: string, line: string)
    requires line in Lines(s)
    ensures exists o :: OccursAt(s, line, o)
  {
    LineOccursFrom(s, [], line);
    assert [] + s == s;
  }

  lemma {:induction false} LineOccursFrom(s: string, cur: string, line: string)
    requires line in LinesFrom(s, cur)
    ensures exists o :: OccursAt(cur + s, line, o)
    decreases |s|
  {
    var t := cur + s;
    if s == [] {
      assert OccursAt(t, line, 0);
    } else if s[0] == '\n' {
      if line == cur + "\n" {
        assert OccursAt(t, line, 0);
      } else {
        assert line in LinesFrom(s[1..], []);
        LineOccursFrom(s[1..], [], line);
        assert [] + s[1..] == s[1..];
        var o :| OccursAt(s[1..], line, o);
        var o' := |cur| + 1 + o;
        assert t[o'..o' + |line|] == s[1..][o..o + |line|];
        assert OccursAt(t, line, o');
      }
    } else {
      LineOccursFrom(s[1..], cur + [s[0]], line);
      assert (cur + [s[0]]) + s[1..] == t;
    }
  }

  /** Reading a text whose first part ends with a line break gives the
      lines of that part, then the lines of the rest. */
  lemma {:induction false} LinesFromAppend(a: string, b: string, cur: string)
    requires a != [] && a[|a| - 1] == '\n'
    ensures LinesFrom(a + b, cur) == LinesFrom(a, cur) + LinesFrom(b, [])
    decreases |a|
  {
    assert (a + b)[0] == a[0] && (a + b)[1..] == a[1..] + b;
    if a[0] == '\n' {
      if |a| > 1 {
        LinesFromAppend(a[1..], b, []);
      }
    } else {
      LinesFromAppend(a[1..], b, cur + [a[0]]);
    }
  }

  /** The first line read begins with the pending text and whatever follows
      it up to the first line break. */
  lemma {:induction false} FirstLineBegins(p: string, rest: string, cur: string)
    requires cur + p != []
    requires '\n' !in p
    ensures LinesFrom(p + rest, cur) != []
    ensures var first := LinesFrom(p + rest, cur)[0];
      |cur + p| <= |first| && first[..|cur + p|] == cur + p
    decreases |p| + |rest|
  {
    if p != [] {
      assert (p + rest)[0] == p[0] && (p + rest)[1..] == p[1..] + rest;
      assert (cur + [p[0]]) + p[1..] == cur + p;
      FirstLineBegins(p[1..], rest, cur + [p[0]]);
    } else if rest != [] && rest[0] != '\n' {
      assert [] + rest == rest && [] + rest[1..] == rest[1..];
      FirstLineBegins([], rest[1..], cur + [rest[0]]);
      assert (cur + [rest[0]]) + [] == cur + [rest[0]];
    } else {
      assert [] + rest == rest;
    }
  }

  /** The pieces of splitlines() hold no line break, and every character
      in them comes from the pending text or the input. */
  lemma {:induction false} SplitLinesFromPieces(s: string, cur: string)
    requires forall k :: 0 <= k < |cur| ==> !IsLineBreak(cur[k])
    ensures forall q, k :: q in SplitLinesFrom(s, cur) && 0 <= k < |q| ==>
      !IsLineBreak(q[k]) && (q[k] in cur || q[k] in s)
    decreases |s|
  {
    if s == [] {
    } else if s[0] == '\r' && |s| > 1 && s[1] == '\n' {
      SplitLinesFromPieces(s[2..], []);
      assert forall c :: c in s[2..] ==> c in s;
    } else if IsLineBreak(s[0]) {
      SplitLinesFromPieces(s[1..], []);
      assert forall c :: c in s[1..] ==> c in s;
    } else {
      SplitLinesFromPieces(s[1..], cur + [s[0]]);
      assert forall c :: c in s[1..] ==> c in s;
      assert forall c :: c in cur + [s[0]] ==> c in cur || c in s;
    }
  }

  lemma {:induction false} SplitNoSeparator(s: string, c: char)
    requires c !in s
    ensures Split(s, c) == [s]
    decreases |s|
  {
    if |s| > 0 {
      SplitNoSeparator(s[1..], c);
      assert [s[0]] + s[1..] == s;
    }
  }

  lemma {:induction false} SplitAfterSeparator(a: string, c: char, b: string)
    requires c !in a
    ensures Split(a + [c] + b, c) == [a] + Split(b, c)
    decreases |a|
  {
    if |a| == 0 {
      assert a + [c] + b == [c] + b;
      assert ([c] + b)[1..] == b;
    } else {
      var s := a + [c] + b;
      assert s[1..] == a[1..] + [c] + b;
      SplitAfterSeparator(a[1..], c, b);
      assert [a[0]] + a[1..] == a;
    }
  }

  /** No part of a split holds the separator. */
  lemma {:induction false} SplitPartsNoSeparator(s: string, c: char)
    ensures forall k :: 0 <= k < |Split(s, c)| ==> c !in Split(s, c)[k]
    decreases |s|
  {
    if |s| > 0 {
      SplitPartsNoSeparator(s[1..], c);
      if s[0] != c {
        var rest := Split(s[1..], c);
        assert c !in rest[0];
        assert c !in [s[0]] + rest[0];
      }
    }
  }

  /** Splitting "a.b.c" on '.' gives back the three parts when none holds a dot. */
  lemma {:induction false} SplitThree(a: string, b: string, c: string)
    requires '.' !in a && '.' !in b && '.' !in c
    ensures Split(a + "." + b + "." + c, '.') == [a, b, c]
  {
    assert a + "." + b + "." + c == a + ['.'] + (b + ['.'] + c);
    SplitAfterSeparator(a, '.', b + ['.'] + c);
    SplitAfterSeparator(b, '.', c);
    SplitNoSeparator(c, '.');
  }

  lemma {:induction false} NatToStringNoDot(n: nat)
    ensures '.' !in NatToString(n)
  {
    var s := NatToString(n);
    assert forall i :: 0 <= i < |s| ==> s[i] != '.';
  }

  lemma {:induction false} IntToStringNoDot(i: int)
    ensures '.' !in IntToString(i)
  {
    if i < 0 {
      NatToStringNoDot(-i);
      assert IntToString(i) == "-" + NatToString(-i);
    } else {
      NatToStringNoDot(i);
    }
  }

  lemma {:induction false} DigitsValueOfNatToString(n: nat)
    ensures DigitsValue(NatToString(n)) == n
    decreases n
  {
    var s := NatToString(n);
    if n >= 10 {
      DigitsValueOfNatToString(n / 10);
      assert s[..|s| - 1] == NatToString(n / 10);
    }
  }

  lemma {:induction false} NatToStringValid(n: nat)
    ensures ValidDigits(NatToString(n))
  {
  }

  /** int(str(i)) == i */
  lemma {:induction false} ParseIntRoundTrip(i: int)
    ensures ParseInt(IntToString(i)) == Some(i)
  {
    if i < 0 {
      var n: nat := -i;
      assert IntToString(i) == "-" + NatToString(n);
      ParseNegative(n);
    } else {
      assert IntToString(i) == NatToString(i);
      ParseNonNegative(i);
    }
  }

  lemma {:induction false} ParseNonNegative(n: nat)
    ensures ParseInt(NatToString(n)) == Some(n)
  {
    var d := NatToString(n);
    NatToStringValid(n);
    DigitsValueOfNatToString(n);
    StripDigits(d);
    assert d[0] != '-' && d[0] != '+';
  }

  lemma {:induction false} ParseNegative(n: nat)
    requires n > 0
    ensures ParseInt("-" + NatToString(n)) == Some(-(n as int))
  {
    NatToStringValid(n);
    DigitsValueOfNatToString(n);
    ParseSigned(NatToString(n), n);
  }

  lemma {:induction false} ParseSigned(d: string, v: int)
    requires ValidDigits(d) && DigitsValue(d) == v
    ensures ParseInt("-" + d) == Some(-v)
  {
    ParseNumeralSigned(d, v);
    ParseIntSigned(d);
  }

  lemma {:induction false} ParseNumeralSigned(d: string, v: int)
    requires ValidDigits(d) && DigitsValue(d) == v
    ensures ParseNumeral("-" + d) == Some(-v)
  {
    var s := "-" + d;
    assert s[1..] == d;
  }

  lemma {:induction false} ParseIntSigned(d: string)
    requires ValidDigits(d)
    ensures ParseInt("-" + d) == ParseNumeral("-" + d)
  {
    StripSigned(d);
  }

  lemma {:induction false} StripDigits(d: string)
    requires forall k :: 0 <= k < |d| ==> IsDigit(d[k])
    ensures Strip(d) == d
  {
    assert forall k :: 0 <= k < |d| ==> !IsSpace(d[k]);
  }

  lemma {:induction false} StripSigned(d: string)
    requires ValidDigits(d)
    ensures Strip("-" + d) == "-" + d
  {
    var s := "-" + d;
    forall k | 0 <= k < |s| ensures !IsSpace(s[k]) {
      if k > 0 { assert s[k] == d[k - 1]; assert IsDigit(d[k - 1]) || d[k - 1] == '_'; }
    }
  }

  /** A decimal numeral of k digits is below 10^k. */
  lemma {:induction false} NatToStringBound(n: nat)
    ensures n < Pow10(|NatToString(n)|)
    decreases n
  {
    if n >= 10 {
      NatToStringBound(n / 10);
    }
  }

  lemma {:induction false} Pow10Monotone(j: nat, k: nat)
    requires j <= k
    ensures Pow10(j) <= Pow10(k)
    decreases k
  {
    if j < k {
      Pow10Monotone(j, k - 1);
    }
  }

  /** Lower-casing is idempotent, so a case-insensitive test may lower either side first. */
  lemma {:induction false} LowerIdempotent(s: string)
    ensures Lower(Lower(s)) == Lower(s)
  {
  }
}
