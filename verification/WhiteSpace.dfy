/** What trimming removes, said by code point instead of by byte pattern. */
module WhiteSpace {
  import opened Text

  /** The code points with the Unicode property White_Space. */
  predicate IsSpaceRune(r: int)
  {
    || 0x09 <= r <= 0x0D || r == 0x20 || r == 0x85 || r == 0xA0 || r == 0x1680 || 0x2000 <= r <= 0x200A
    || r == 0x2028 || r == 0x2029 || r == 0x202F || r == 0x205F || r == 0x3000
  }

  /** UTF-8 (section 3 of RFC 3629), for code points of at most three bytes. */
  function Utf8(r: int): (s: string)
    requires 0 <= r < 0x10000
    ensures 1 <= |s| <= 3
  {
    if r < 0x80 then [r as char]
    else if r < 0x800 then [(0xC0 + r / 64) as char, (0x80 + r % 64) as char]
    else [(0xE0 + r / 4096) as char, (0x80 + r / 64 % 64) as char, (0x80 + r % 64) as char]
  }

  /** One white-space character. */
  ghost predicate IsSpace(s: string)
  {
    exists r :: IsSpaceRune(r) && s == Utf8(r)
  }

  /** The bytes of one white-space character. */
  predicate SpaceBytes(s: string)
  {
    || (|s| == 1 && AsciiSpace(s[0]))
    || (|s| == 2 && s[0] == '\U{C2}' && (s[1] == '\U{85}' || s[1] == '\U{A0}'))
    || (|s| == 3 && WideSpace(s[0], s[1], s[2]))
  }

  lemma RuneBytes(r: int)
    requires IsSpaceRune(r)
    ensures SpaceBytes(Utf8(r))
  {
    if 0x2000 <= r <= 0x200A {
      assert r / 4096 == 2 && r / 64 == 0x80;
    }
  }

  lemma BytesRune(s: string) returns (r: int)
    requires SpaceBytes(s)
    ensures IsSpaceRune(r) && s == Utf8(r)
  {
    if |s| == 1 {
      r := s[0] as int;
    } else if |s| == 2 {
      r := s[1] as int;
    } else {
      r := (s[0] as int - 0xE0) * 4096 + (s[1] as int - 0x80) * 64 + (s[2] as int - 0x80);
      assert r / 4096 == s[0] as int - 0xE0 && r / 64 % 64 == s[1] as int - 0x80 && r % 64 == s[2] as int - 0x80;
    }
  }

  lemma SpaceHasBytes(s: string)
    ensures IsSpace(s) <==> SpaceBytes(s)
  {
    if IsSpace(s) {
      var r :| IsSpaceRune(r) && s == Utf8(r);
      RuneBytes(r);
    } else if SpaceBytes(s) {
      var r := BytesRune(s);
    }
  }

  /** Trimming looks for exactly these characters, at the front ... */
  lemma FrontIsSpace(s: string)
    ensures SpaceAtFront(s) > 0 ==> IsSpace(s[..SpaceAtFront(s)])
    ensures forall w :: IsSpace(w) && w <= s ==> SpaceAtFront(s) == |w|
  {
    hide IsSpace;
    SpaceHasBytes(s[..SpaceAtFront(s)]);
    forall w | IsSpace(w) && w <= s ensures SpaceAtFront(s) == |w| {
      SpaceHasBytes(w);
      assert forall k :: 0 <= k < |w| ==> s[k] == w[k];
    }
  }

  /** ... and at the back. */
  lemma BackIsSpace(s: string)
    ensures SpaceAtBack(s) > 0 ==> IsSpace(s[|s|-SpaceAtBack(s)..])
    ensures forall t, w :: IsSpace(w) && s == t + w ==> SpaceAtBack(s) == |w|
  {
    hide IsSpace;
    SpaceHasBytes(s[|s|-SpaceAtBack(s)..]);
    forall t, w | IsSpace(w) && s == t + w ensures SpaceAtBack(s) == |w| {
      SpaceHasBytes(w);
      assert forall k :: 0 <= k < |w| ==> s[|t|+k] == w[k];
    }
  }

  // ---------------------------------------------------------------- what is removed

  lemma {:induction false} TrimLeftAfterSpace(w: string, s: string)
    requires IsSpace(w)
    ensures TrimLeft(w + s) == TrimLeft(s)
  {
    FrontIsSpace(w + s);
    SpaceHasBytes(w);
    hide IsSpace, SpaceAtFront;
    assert (w + s)[|w|..] == s;
  }

  lemma {:induction false} TrimRightBeforeSpace(s: string, w: string)
    requires IsSpace(w)
    ensures TrimRight(s + w) == TrimRight(s)
  {
    BackIsSpace(s + w);
    SpaceHasBytes(w);
    hide IsSpace, SpaceAtBack;
    assert (s + w)[..|s|] == s;
  }

  /** A front white-space character does not reach into white space behind. */
  lemma FrontStopsAtSpace(s: string, w: string)
    requires SpaceBytes(w) && s != ""
    ensures SpaceAtFront(s + w) == SpaceAtFront(s)
  {}

  lemma {:induction false} TrimLeftBeforeSpace(s: string, w: string)
    requires IsSpace(w)
    ensures TrimLeft(s + w) == if TrimLeft(s) == "" then "" else TrimLeft(s) + w
    decreases |s|
  {
    SpaceHasBytes(w);
    var n := SpaceAtFront(s);
    if s == "" {
      TrimLeftAfterSpace(w, "");
      assert s + w == w == w + "";
    } else {
      FrontStopsAtSpace(s, w);
      hide IsSpace, SpaceAtFront, SpaceBytes;
      if n > 0 {
        TrimLeftBeforeSpace(s[n..], w);
        assert (s + w)[n..] == s[n..] + w;
      }
    }
  }

  /** White space at either end makes no difference. */
  lemma {:induction false} SpaceAtEndsIsTrimmed(s: string, w: string)
    requires IsSpace(w)
    ensures TrimSpace(w + s) == TrimSpace(s) && TrimSpace(s + w) == TrimSpace(s)
  {
    hide IsSpace, TrimLeft, TrimRight;
    TrimLeftAfterSpace(w, s);
    TrimLeftBeforeSpace(s, w);
    if TrimLeft(s) != "" { TrimRightBeforeSpace(TrimLeft(s), w); }
  }

  /** A row of white-space characters. */
  ghost predicate Blank(s: string)
    decreases |s|
  {
    s == "" || exists n :: 1 <= n <= |s| && IsSpace(s[..n]) && Blank(s[n..])
  }

  lemma BlankCons(w: string, s: string)
    requires IsSpace(w) && Blank(s)
    ensures Blank(w + s)
  {
    SpaceHasBytes(w);
    hide IsSpace;
    assert (w + s)[..|w|] == w && (w + s)[|w|..] == s;
  }

  lemma FirstSpace(s: string) returns (w: string, rest: string)
    requires Blank(s) && s != ""
    ensures IsSpace(w) && w != "" && s == w + rest && Blank(rest)
  {
    hide IsSpace;
    var n :| 1 <= n <= |s| && IsSpace(s[..n]) && Blank(s[n..]);
    w, rest := s[..n], s[n..];
  }

  lemma {:induction false} BlankEndsAreTrimmed(front: string, s: string, back: string)
    requires Blank(front) && Blank(back)
    ensures TrimSpace(front + s + back) == TrimSpace(s)
    decreases |front| + |back|
  {
    hide TrimSpace, Blank, IsSpace;
    if front != "" {
      var w, rest := FirstSpace(front);
      BlankEndsAreTrimmed(rest, s, back);
      SpaceAtEndsIsTrimmed(rest + s + back, w);
      assert front + s + back == w + (rest + s + back);
    } else if back != "" {
      var w, rest := FirstSpace(back);
      BlankEndsAreTrimmed(front, s + w, rest);
      SpaceAtEndsIsTrimmed(s, w);
      assert front + s + back == front + (s + w) + rest;
    } else {
      assert front + s + back == s;
    }
  }

  /** No white space at either end. */
  ghost predicate Trimmed(s: string)
  {
    forall w :: IsSpace(w) ==> !(w <= s) && (|w| <= |s| ==> s[|s|-|w|..] != w)
  }

  lemma TrimmedMeans(s: string)
    ensures Trimmed(s) <==> SpaceAtFront(s) == 0 && SpaceAtBack(s) == 0
  {
    hide IsSpace, SpaceAtFront, SpaceAtBack;
    FrontIsSpace(s);
    BackIsSpace(s);
    if Trimmed(s) {
      var n, m := SpaceAtFront(s), SpaceAtBack(s);
      assert s[..n] <= s;
      assert |s| - |s[|s|-m..]| == |s| - m;
    } else {
      var w :| IsSpace(w) && (w <= s || (|w| <= |s| && s[|s|-|w|..] == w));
      NotEmpty(w);
      assert |w| <= |s| && s[|s|-|w|..] == w ==> s == s[..|s|-|w|] + w;
    }
  }

  lemma NotEmpty(w: string)
    requires IsSpace(w)
    ensures w != ""
  {}

  lemma CutTwice(s: string, n: nat, a: string, b: string)
    requires n <= |s| && (s[n..] == a + b)
    ensures s == s[..n] + a + b
  {}

  lemma CutAgain(s: string, k: nat, a: string, b: string)
    requires k <= |s| && (s[..k] == a + b)
    ensures s == a + (b + s[k..])
  {}

  lemma NothingIsBlank()
    ensures Blank("")
  {}

  lemma {:induction false} TrimLeftRemovesBlank(s: string) returns (front: string)
    ensures Blank(front) && s == front + TrimLeft(s) && SpaceAtFront(TrimLeft(s)) == 0
    decreases |s|
  {
    hide Blank, IsSpace;
    var n := SpaceAtFront(s);
    if n > 0 {
      FrontIsSpace(s);
      hide SpaceAtFront;
      var rest := TrimLeftRemovesBlank(s[n..]);
      front := s[..n] + rest;
      BlankCons(s[..n], rest);
      CutTwice(s, n, rest, TrimLeft(s[n..]));
    } else {
      front := "";
      NothingIsBlank();
    }
  }

  lemma {:induction false} BlankSnoc(s: string, w: string)
    requires Blank(s) && IsSpace(w)
    ensures Blank(s + w)
    decreases |s|
  {
    hide Blank, IsSpace;
    if s == "" {
      NothingIsBlank();
      BlankCons(w, "");
      assert s + w == w == w + "";
    } else {
      var first, rest := FirstSpace(s);
      BlankSnoc(rest, w);
      BlankCons(first, rest + w);
      assert s + w == first + (rest + w);
    }
  }

  lemma {:induction false} TrimRightRemovesBlank(s: string) returns (back: string)
    ensures Blank(back) && s == TrimRight(s) + back && SpaceAtBack(TrimRight(s)) == 0
    decreases |s|
  {
    hide Blank, IsSpace;
    var n := SpaceAtBack(s);
    if n > 0 {
      BackIsSpace(s);
      hide SpaceAtBack;
      var k := |s| - n;
      var rest := TrimRightRemovesBlank(s[..k]);
      back := rest + s[k..];
      BlankSnoc(rest, s[k..]);
      CutAgain(s, k, TrimRight(s[..k]), rest);
    } else {
      back := "";
      NothingIsBlank();
    }
  }

  lemma PrefixKeepsFront(t: string, back: string)
    requires SpaceAtFront(t + back) == 0
    ensures SpaceAtFront(t) == 0
  {
    var s := t + back;
    assert forall k :: 0 <= k < |t| ==> t[k] == s[k];
  }

  /** Trimming removes all the white space at both ends and nothing else. */
  lemma {:induction false} TrimSpaceExactlyWhen(s: string, t: string)
    ensures t == TrimSpace(s) <==>
              Trimmed(t) && exists front, back :: Blank(front) && Blank(back) && s == front + t + back
  {
    hide TrimLeft, TrimRight, Blank, Trimmed, SpaceAtFront, SpaceAtBack;
    TrimmedMeans(t);
    if t == TrimSpace(s) {
      var front := TrimLeftRemovesBlank(s);
      var back := TrimRightRemovesBlank(TrimLeft(s));
      PrefixKeepsFront(t, back);
      assert s == front + t + back;
    }
    if Trimmed(t) && exists front, back :: Blank(front) && Blank(back) && s == front + t + back {
      var front, back :| Blank(front) && Blank(back) && s == front + t + back;
      BlankEndsAreTrimmed(front, t, back);
      AlreadyTrimmed(t);
    }
  }

  lemma AlreadyTrimmed(t: string)
    requires SpaceAtFront(t) == 0 && SpaceAtBack(t) == 0
    ensures TrimSpace(t) == t
  {}
}
