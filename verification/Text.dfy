/** Byte strings as the program sees them.

    A Go string is a sequence of bytes; here it is a Dafny `string` in which the
    character with code b stands for the byte b.  Every statement below ranges
    over all strings, so it covers every byte string. */
module Text {

  datatype Option<+T> = None | Some(value: T)

  lemma TakeSnoc<T>(s: seq<T>, i: nat)
    requires i < |s|
    ensures s[..i+1] == s[..i] + [s[i]]
  {}

  // ---------------------------------------------------------------- white space

  predicate AsciiSpace(c: char)
  {
    c == ' ' || c == '\t' || c == '\n' || c == '\r' || c == '\U{0B}' || c == '\U{0C}'
  }

  /** The three-byte UTF-8 encodings of the white-space runes
      U+1680, U+2000..U+200A, U+2028, U+2029, U+202F, U+205F and U+3000. */
  predicate WideSpace(a: char, b: char, c: char)
  {
    || (a == '\U{E1}' && b == '\U{9A}' && c == '\U{80}')
    || (a == '\U{E2}' && b == '\U{80}' &&
        ('\U{80}' <= c <= '\U{8A}' || c == '\U{A8}' || c == '\U{A9}' || c == '\U{AF}'))
    || (a == '\U{E2}' && b == '\U{81}' && c == '\U{9F}')
    || (a == '\U{E3}' && b == '\U{80}' && c == '\U{80}')
  }

  /** Number of bytes of the white-space rune that s starts with, 0 if none. */
  function SpaceAtFront(s: string): (n: nat)
    ensures n <= |s|
  {
    if |s| >= 1 && AsciiSpace(s[0]) then 1
    else if |s| >= 2 && s[0] == '\U{C2}' && (s[1] == '\U{85}' || s[1] == '\U{A0}') then 2
    else if |s| >= 3 && WideSpace(s[0], s[1], s[2]) then 3
    else 0
  }

  /** Number of bytes of the white-space rune that s ends with, 0 if none. */
  function SpaceAtBack(s: string): (n: nat)
    ensures n <= |s|
  {
    var k := |s|;
    if k >= 1 && AsciiSpace(s[k-1]) then 1
    else if k >= 2 && s[k-2] == '\U{C2}' && (s[k-1] == '\U{85}' || s[k-1] == '\U{A0}') then 2
    else if k >= 3 && WideSpace(s[k-3], s[k-2], s[k-1]) then 3
    else 0
  }

  function TrimLeft(s: string): string
  {
    var n := SpaceAtFront(s);
    if n == 0 then s else TrimLeft(s[n..])
  }

  function TrimRight(s: string): (r: string)
    ensures |r| <= |s| && r == s[..|r|]
  {
    var n := SpaceAtBack(s);
    if n == 0 then s else TrimRight(s[..|s|-n])
  }

  function TrimSpace(s: string): string
  {
    TrimRight(TrimLeft(s))
  }

  /** A byte that is neither white space nor part of a multi-byte white-space rune. */
  predicate Solid(c: char)
  {
    c < '\U{80}' && !AsciiSpace(c)
  }

  /** Trimming on the right never reaches past a solid byte. */
  lemma {:induction false} TrimRightStopsAtSolid(a: string, c: char, v: string)
    requires Solid(c)
    ensures TrimRight(a + [c] + v) == a + [c] + TrimRight(v)
    decreases |v|
  {
    var s := a + [c] + v;
    var n := SpaceAtBack(v);
    assert SpaceAtBack(s) == n;
    if n > 0 {
      assert s[..|s|-n] == a + [c] + v[..|v|-n];
      TrimRightStopsAtSolid(a, c, v[..|v|-n]);
    }
  }

  /** A text with solid ends is left alone. */
  lemma TrimmedText(a: string, c: char, v: string)
    requires a != "" && Solid(a[0]) && Solid(c) && TrimRight(v) == v
    ensures TrimSpace(a + [c] + v) == a + [c] + v
  {
    TrimRightStopsAtSolid(a, c, v);
    var s := a + [c] + v;
    assert s[0] == a[0] && SpaceAtFront(s) == 0;
  }

  /** The bytes that survive trimming are bytes of the original. */
  lemma {:induction false} TrimKeepsBytes(s: string, c: char)
    requires c !in s
    ensures c !in TrimLeft(s) && c !in TrimSpace(s)
    decreases |s|
  {
    var n := SpaceAtFront(s);
    if n > 0 {
      TrimKeepsBytes(s[n..], c);
    }
  }

  // ---------------------------------------------------------------- splitting

  /** First index of c in s, or |s|. */
  function Find(s: string, c: char): (i: nat)
    ensures i <= |s|
    ensures c !in s[..i]
    ensures i < |s| ==> s[i] == c
    ensures i == |s| <==> c !in s
  {
    if s == [] then 0
    else if s[0] == c then 0
    else
      var i := 1 + Find(s[1..], c);
      assert s[..i] == [s[0]] + s[1..][..i-1];
      assert s == [s[0]] + s[1..];
      i
  }

  lemma {:induction false} FindAfterPrefix(a: string, c: char, b: string)
    requires c !in a
    ensures Find(a + [c] + b, c) == |a|
  {
    var s := a + [c] + b;
    var i := Find(s, c);
    assert s[|a|] == c && s[..|a|] == a;
  }

  /** The pieces of s between line feeds, as strings.Split(s, "\n") gives them. */
  function SplitLines(s: string): (lines: seq<string>)
    ensures |lines| > 0
    decreases |s|
  {
    var i := Find(s, '\n');
    if i == |s| then [s] else [s[..i]] + SplitLines(s[i+1..])
  }

  function JoinLines(lines: seq<string>): string
    requires |lines| > 0
  {
    if |lines| == 1 then lines[0] else lines[0] + "\n" + JoinLines(lines[1..])
  }

  ghost predicate OneLine(s: string)
  {
    '\n' !in s
  }

  lemma {:induction false} SplitGivesSingleLines(s: string)
    ensures forall k :: 0 <= k < |SplitLines(s)| ==> OneLine(SplitLines(s)[k])
    decreases |s|
  {
    var i := Find(s, '\n');
    if i < |s| { SplitGivesSingleLines(s[i+1..]); }
  }

  lemma {:induction false} JoinAfterSplit(s: string)
    ensures JoinLines(SplitLines(s)) == s
    decreases |s|
  {
    hide JoinLines, Find;
    var i := Find(s, '\n');
    if i < |s| {
      var rest := s[i+1..];
      JoinAfterSplit(rest);
      JoinCons(s[..i], SplitLines(rest));
      assert SplitLines(s) == [s[..i]] + SplitLines(rest);
      CutAt(s, i);
    } else {
      JoinOne(s);
    }
  }

  lemma JoinOne(line: string)
    ensures JoinLines([line]) == line
  {}

  lemma JoinCons(line: string, lines: seq<string>)
    requires |lines| > 0
    ensures JoinLines([line] + lines) == line + "\n" + JoinLines(lines)
  {
    assert ([line] + lines)[1..] == lines;
  }

  lemma CutAt(s: string, i: nat)
    requires i < |s|
    ensures s == s[..i] + [s[i]] + s[i+1..]
  {}

  lemma {:induction false} SplitAfterJoin(lines: seq<string>)
    requires |lines| > 0
    requires forall k :: 0 <= k < |lines| ==> OneLine(lines[k])
    ensures SplitLines(JoinLines(lines)) == lines
  {
    assert OneLine(lines[0]);
    if |lines| > 1 {
      SplitFirst(lines[0], JoinLines(lines[1..]));
      SplitAfterJoin(lines[1..]);
      hide SplitLines;
      assert lines == [lines[0]] + lines[1..];
    }
  }

  lemma SplitFirst(line: string, rest: string)
    requires OneLine(line)
    ensures SplitLines(line + "\n" + rest) == [line] + SplitLines(rest)
  {
    FindAfterPrefix(line, '\n', rest);
    hide Find;
    var s := line + "\n" + rest;
    assert s[|line|+1..] == rest && s[..|line|] == line;
  }

  // ---------------------------------------------------------------- order

  /** Go's `<` on strings: byte-wise lexicographic order. */
  predicate Less(a: string, b: string)
  {
    if b == [] then false
    else if a == [] then true
    else a[0] < b[0] || (a[0] == b[0] && Less(a[1..], b[1..]))
  }

  lemma {:induction false} LessTotal(a: string, b: string)
    ensures a == b || Less(a, b) || Less(b, a)
    ensures !(Less(a, b) && Less(b, a))
    ensures !Less(a, a)
  {
    if a != [] && b != [] && a[0] == b[0] {
      LessTotal(a[1..], b[1..]);
      if a[1..] == b[1..] { assert a == [a[0]] + a[1..]; assert b == [b[0]] + b[1..]; }
    } else if a != [] {
      LessTotal(a[1..], a[1..]);
    }
    if a != [] { LessTotal(a[1..], a[1..]); }
  }

  lemma {:induction false} LessTransitive(a: string, b: string, c: string)
    requires Less(a, b) && Less(b, c)
    ensures Less(a, c)
  {
    if a != [] && a[0] == b[0] && b[0] == c[0] {
      LessTransitive(a[1..], b[1..], c[1..]);
    }
  }

  /** a is a proper prefix of b, or has the smaller byte where they first differ. */
  ghost predicate ComesFirst(a: string, b: string)
  {
    exists k: nat :: ComesFirstAt(a, b, k)
  }

  predicate ComesFirstAt(a: string, b: string, k: nat)
  {
    k <= |a| && k < |b| && a[..k] == b[..k] && (k == |a| || a[k] < b[k])
  }

  /** What the order is. */
  lemma {:induction false} LessMeans(a: string, b: string)
    ensures Less(a, b) <==> ComesFirst(a, b)
  {
    if Less(a, b) {
      var k := WhereLess(a, b);
    }
    if ComesFirst(a, b) {
      var k: nat :| ComesFirstAt(a, b, k);
      SmallerIsLess(a, b, k);
    }
  }

  lemma {:induction false} WhereLess(a: string, b: string) returns (k: nat)
    requires Less(a, b)
    ensures ComesFirstAt(a, b, k)
  {
    if a == [] || a[0] < b[0] {
      k := 0;
    } else {
      k := WhereLess(a[1..], b[1..]);
      assert a[..k+1] == [a[0]] + a[1..][..k] && b[..k+1] == [b[0]] + b[1..][..k];
      k := k + 1;
    }
  }

  lemma {:induction false} SmallerIsLess(a: string, b: string, k: nat)
    requires ComesFirstAt(a, b, k)
    ensures Less(a, b)
  {
    if k > 0 {
      assert a[0] == a[..k][0] && b[0] == b[..k][0];
      assert a[1..][..k-1] == a[..k][1..] && b[1..][..k-1] == b[..k][1..];
      SmallerIsLess(a[1..], b[1..], k - 1);
    }
  }

  // ---------------------------------------------------------------- decimal numbers

  predicate Digit(c: char)
  {
    '0' <= c <= '9'
  }

  function DigitValue(c: char): int
  {
    c as int - '0' as int
  }

  function Value(digits: string): int
  {
    if digits == [] then 0 else 10 * Value(digits[..|digits|-1]) + DigitValue(digits[|digits|-1])
  }

  /** A decimal number as it is usually written, without leading zeros. */
  ghost predicate IsNumeral(digits: string)
  {
    digits != "" && AllDigits(digits) && (|digits| > 1 ==> digits[0] != '0')
  }

  ghost predicate AllDigits(digits: string)
  {
    forall i :: 0 <= i < |digits| ==> Digit(digits[i])
  }

  function Power10(n: nat): nat
  {
    if n == 0 then 1 else 10 * Power10(n - 1)
  }

  lemma {:induction false} ValueFromLeft(digits: string)
    requires digits != ""
    ensures Value(digits) == DigitValue(digits[0]) * Power10(|digits| - 1) + Value(digits[1..])
  {
    var n := |digits| - 1;
    if n > 0 {
      var init := digits[..n];
      ValueFromLeft(init);
      assert init[1..] == digits[1..][..n-1];
      assert Value(digits) == 10 * Value(init) + DigitValue(digits[n]);
      assert Value(digits[1..]) == 10 * Value(init[1..]) + DigitValue(digits[n]);
      hide Value;
      TenTimes(DigitValue(digits[0]), Power10(n - 1));
    }
  }

  lemma TenTimes(d: int, p: int)
    ensures 10 * (d * p) == d * (10 * p)
  {}

  lemma {:induction false} ValueBelowPower(digits: string)
    requires AllDigits(digits)
    ensures 0 <= Value(digits) < Power10(|digits|)
  {
    if digits != "" {
      ValueBelowPower(digits[..|digits|-1]);
    }
  }

  lemma ValueAbovePower(digits: string)
    requires IsNumeral(digits)
    ensures |digits| > 1 ==> Power10(|digits| - 1) <= Value(digits)
  {
    ValueFromLeft(digits);
    ValueBelowPower(digits[1..]);
    if |digits| > 1 {
      AtLeastOnce(DigitValue(digits[0]), Power10(|digits| - 1));
    }
  }

  lemma AtLeastOnce(d: int, p: nat)
    requires d >= 1
    ensures d * p >= p
  {}

  lemma {:induction false} PowersGrow(m: nat, n: nat)
    requires m <= n
    ensures Power10(m) <= Power10(n)
  {
    if m < n { PowersGrow(m, n - 1); }
  }

  /** Numbers of the same length compare as texts do. */
  lemma {:induction false} SameLengthOrder(a: string, b: string)
    requires |a| == |b| && AllDigits(a) && AllDigits(b)
    ensures Less(a, b) <==> Value(a) < Value(b)
  {
    if a != "" {
      var p := Power10(|a| - 1);
      ValueFromLeft(a);
      ValueFromLeft(b);
      ValueBelowPower(a[1..]);
      ValueBelowPower(b[1..]);
      SameLengthOrder(a[1..], b[1..]);
      LeadingDigitDecides(DigitValue(a[0]), DigitValue(b[0]), p, Value(a[1..]), Value(b[1..]));
    }
  }

  lemma LeadingDigitDecides(d: int, e: int, p: nat, x: int, y: int)
    requires 0 <= x < p && 0 <= y < p
    ensures d < e ==> d * p + x < e * p + y
    ensures d == e ==> (d * p + x < e * p + y <==> x < y)
    ensures d > e ==> d * p + x > e * p + y
  {
    if d < e { AtLeastOnce(e - d, p); assert (e - d) * p == e * p - d * p; }
    if d > e { AtLeastOnce(d - e, p); assert (d - e) * p == d * p - e * p; }
  }

  /** A longer number is the larger one; among equally long ones the text decides. */
  lemma NumeralOrder(a: string, b: string)
    requires IsNumeral(a) && IsNumeral(b)
    ensures (if |a| != |b| then |a| < |b| else Less(a, b)) <==> Value(a) < Value(b)
  {
    if |a| == |b| {
      SameLengthOrder(a, b);
    } else if |a| < |b| {
      LongerIsLarger(a, b);
    } else {
      LongerIsLarger(b, a);
    }
  }

  lemma LongerIsLarger(a: string, b: string)
    requires IsNumeral(a) && IsNumeral(b) && |a| < |b|
    ensures Value(a) < Value(b)
  {
    ValueBelowPower(a);
    ValueAbovePower(b);
    PowersGrow(|a|, |b| - 1);
  }
}
