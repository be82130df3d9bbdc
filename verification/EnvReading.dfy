/** How an `.env` file is read, whatever its white space: the shapes of a line,
    CRLF line ends, and the keys in file order. */
module EnvReading {
  import opened Text
  import opened WhiteSpace
  import opened EnvFiles

  // ---------------------------------------------------------------- white space around a line

  /** What a line says, from its trimmed text alone. */
  lemma SameTextSameLine(raw: string, raw': string)
    requires TrimSpace(raw) == TrimSpace(raw')
    ensures ParseLine(raw') == ParseLine(raw).(raw := raw')
  {
    hide TrimSpace, Find, Unquote, StartsWith;
  }

  /** White space at either end of a line makes no difference to what it says. */
  lemma SpaceAroundALine(front: string, raw: string, back: string)
    requires Blank(front) && Blank(back)
    ensures ParseLine(front + raw + back) == ParseLine(raw).(raw := front + raw + back)
  {
    hide ParseLine, TrimSpace, Blank;
    BlankEndsAreTrimmed(front, raw, back);
    SameTextSameLine(raw, front + raw + back);
  }

  lemma CarriageReturnIsBlank()
    ensures Blank("\r")
  {
    SpaceHasBytes("\r");
    NothingIsBlank();
    hide Blank, IsSpace;
    BlankCons("\r", "");
    assert "\r" + "" == "\r";
  }

  lemma CarriageReturnAtTheEnd(raw: string)
    ensures ParseLine(raw + "\r") == ParseLine(raw).(raw := raw + "\r")
  {
    hide ParseLine, Blank;
    CarriageReturnIsBlank();
    NothingIsBlank();
    SpaceAroundALine("", raw, "\r");
    assert "" + raw + "\r" == raw + "\r";
  }

  // ---------------------------------------------------------------- the shapes of a line

  /** A key as it can stand before the `=`: any text that is not empty, has no
      white space at its ends and no `=` in it, and starts no comment. */
  ghost predicate PossibleKey(key: string)
  {
    key != "" && SpaceAtFront(key) == 0 && SpaceAtBack(key) == 0 && '=' !in key && key[0] != '#'
  }

  lemma FirstByte(w: string)
    requires SpaceBytes(w)
    ensures '=' !in w && !('\U{80}' <= w[0] <= '\U{BF}')
  {}

  lemma {:induction false} BlankBytes(s: string)
    requires Blank(s)
    ensures '=' !in s && (s != "" ==> !('\U{80}' <= s[0] <= '\U{BF}'))
    decreases |s|
  {
    if s != "" {
      hide Blank, IsSpace;
      var w, rest := FirstSpace(s);
      SpaceHasBytes(w);
      FirstByte(w);
      BlankBytes(rest);
      hide SpaceBytes;
    }
  }

  /** A character that ends before x does not start in s and end in x. */
  lemma FrontStops(s: string, x: string)
    requires s != "" && (x != "" ==> !('\U{80}' <= x[0] <= '\U{BF}'))
    ensures SpaceAtFront(s + x) == SpaceAtFront(s)
  {}

  lemma KeyBeforeEquals(key: string, gap: string, rest: string)
    requires PossibleKey(key) && Blank(gap)
    ensures TrimSpace(key + gap + "=" + rest) == key + gap + "=" + TrimRight(rest)
    ensures Find(key + gap + "=" + rest, '=') == |key + gap| && TrimSpace(key + gap) == key
  {
    hide TrimSpace, Find, Blank, SpaceAtFront, SpaceAtBack, TrimRight;
    BlankBytes(gap);
    NothingIsBlank();
    BlankEndsAreTrimmed("", key, gap);
    assert "" + key + gap == key + gap;
    AlreadyTrimmed(key);
    FindAfterPrefix(key + gap, '=', rest);
    KeyIsFirst(key, gap, rest);
    TrimRightStopsAtSolid(key + gap, '=', rest);
    TrimSpaceFromFront(key + gap + "=" + rest);
  }

  lemma KeyIsFirst(key: string, gap: string, rest: string)
    requires PossibleKey(key) && Blank(gap)
    ensures SpaceAtFront(key + gap + "=" + rest) == 0
  {
    BlankBytes(gap);
    hide Blank, SpaceAtFront;
    var x := gap + "=" + rest;
    assert x[0] == if gap == "" then '=' else gap[0];
    FrontStops(key, x);
    hide *;
    assert key + gap + "=" + rest == key + x;
  }

  lemma TrimSpaceFromFront(s: string)
    requires SpaceAtFront(s) == 0
    ensures TrimSpace(s) == TrimRight(s)
  {}

  lemma NoExport(head: string, rest: string)
    requires !StartsWith(head, EXPORT)
    ensures !StartsWith(head + "=" + rest, EXPORT)
  {
    var s := head + "=" + rest;
    if |head| >= |EXPORT| {
      assert s[..|EXPORT|] == head[..|EXPORT|];
    } else {
      assert s[|head|] == '=' && EXPORT[|head|] != '=';
    }
  }

  lemma CutAtEquals(head: string, rest: string)
    ensures var s := head + "=" + rest; s[..|head|] == head && s[|head|+1..] == rest
  {}

  /** An assignment, with white space anywhere around the key and the value. */
  lemma AssignmentIsRead(front: string, key: string, gap: string, body: string)
    requires Blank(front) && Blank(gap) && PossibleKey(key) && !StartsWith(key + gap, EXPORT)
    ensures var raw := front + (key + gap + "=" + body);
            ParseLine(raw) == Line(raw, key, Unquote(TrimRight(body)).0, Unquote(TrimRight(body)).1, false)
  {
    hide Blank, ParseLine, TrimRight, TrimSpace, Find, Unquote;
    var text, rest := key + gap + "=" + body, TrimRight(body);
    var trimmed := key + gap + "=" + rest;
    KeyBeforeEquals(key, gap, body);
    KeyBeforeEquals(key, gap, rest);
    CutAtEquals(key + gap, rest);
    NoExport(key + gap, rest);
    assert trimmed[0] == key[0];
    hide PossibleKey, StartsWith;
    ParseWork(text, trimmed, trimmed);
    NothingIsBlank();
    SpaceAroundALine(front, text, "");
    assert front + text + "" == front + text;
  }

  /** The same after `export`, with any more white space before the key. */
  lemma ExportIsRead(front: string, more: string, key: string, gap: string, body: string)
    requires Blank(front) && Blank(more) && Blank(gap) && PossibleKey(key)
    ensures var raw := front + (EXPORT + more + (key + gap + "=" + body));
            ParseLine(raw) == Line(raw, key, Unquote(TrimRight(body)).0, Unquote(TrimRight(body)).1, false)
  {
    hide Blank, ParseLine, TrimRight, TrimSpace, Find, Unquote;
    var rest := TrimRight(body);
    var text, work := EXPORT + more + (key + gap + "=" + body), key + gap + "=" + rest;
    KeyBeforeEquals(key, gap, rest);
    CutAtEquals(key + gap, rest);
    hide PossibleKey;
    ExportIsTrimmed(more + (key + gap), body);
    assert text == EXPORT + (more + (key + gap)) + "=" + body;
    var trimmed := EXPORT + more + work;
    assert trimmed == EXPORT + (more + (key + gap)) + "=" + rest;
    NothingIsBlank();
    BlankEndsAreTrimmed(more, work, "");
    RightIsTrimmed(key, gap, body);
    AfterExport(more, work);
    ParseWork(text, trimmed, work);
    SpaceAroundALine(front, text, "");
    assert front + text + "" == front + text;
  }

  lemma AfterExport(more: string, work: string)
    ensures (EXPORT + more + work)[|EXPORT|..] == more + work == more + work + ""
  {}

  lemma RightIsTrimmed(key: string, gap: string, body: string)
    requires PossibleKey(key) && Blank(gap)
    ensures TrimSpace(key + gap + "=" + TrimRight(body)) == key + gap + "=" + TrimRight(body)
  {
    hide Blank, TrimSpace, TrimRight, PossibleKey;
    KeyBeforeEquals(key, gap, TrimRight(body));
    TrimRightTwice(body);
  }

  lemma {:induction false} TrimRightTwice(s: string)
    ensures TrimRight(TrimRight(s)) == TrimRight(s)
    decreases |s|
  {
    var n := SpaceAtBack(s);
    if n > 0 { TrimRightTwice(s[..|s|-n]); }
  }

  lemma ExportIsTrimmed(head: string, body: string)
    ensures TrimSpace(EXPORT + head + "=" + body) == EXPORT + head + "=" + TrimRight(body)
    ensures StartsWith(EXPORT + head + "=" + TrimRight(body), EXPORT)
    ensures !StartsWith(EXPORT + head + "=" + TrimRight(body), "#")
  {
    var s := EXPORT + head + "=" + body;
    assert s[0] == 'e' && SpaceAtFront(s) == 0;
    TrimRightStopsAtSolid(EXPORT + head, '=', body);
    hide TrimRight;
  }

  /** A comment and a line without `=` hold no key. */
  lemma OtherLinesHoldNoKey(raw: string)
    requires StartsWith(TrimSpace(raw), "#") || '=' !in raw
    ensures ParseLine(raw) == Line(raw, "", "", "", StartsWith(TrimSpace(raw), "#"))
  {
    var trimmed := TrimSpace(raw);
    if '=' !in raw {
      TrimKeepsBytes(raw, '=');
      if StartsWith(trimmed, EXPORT) { TrimKeepsBytes(trimmed[|EXPORT|..], '='); }
    }
    hide TrimSpace, Unquote;
  }

  /** A valid key, byte by byte: an underscore or a letter, and digits except
      in the first place. */
  lemma ValidKeyBytes(key: string)
    ensures ValidKey(key) <==>
              key != "" && forall i :: 0 <= i < |key| ==>
                var b := key[i] as int; b == 95 || 65 <= b <= 90 || 97 <= b <= 122 || (i > 0 && 48 <= b <= 57)
  {
    if ValidKey(key) { assert forall i :: 0 <= i < |key| ==> KeyChar(key[i]); }
  }

  // ---------------------------------------------------------------- CRLF files

  /** The file with a carriage return before every line feed. */
  function Crlf(data: string): string
    decreases |data|
  {
    var i := Find(data, '\n');
    if i == |data| then data else data[..i] + "\r" + "\n" + Crlf(data[i+1..])
  }

  lemma FirstLine(data: string, i: nat)
    requires i < |data| && i == Find(data, '\n')
    ensures SplitLines(data) == [data[..i]] + SplitLines(data[i+1..])
    ensures Crlf(data) == data[..i] + "\r" + "\n" + Crlf(data[i+1..])
    ensures '\n' !in data[..i]
  {
    hide Find;
  }

  lemma OnlyLine(data: string)
    requires Find(data, '\n') == |data|
    ensures SplitLines(data) == [data] && Crlf(data) == data
  {}

  /** The same lines with a carriage return at the end of each but the last. */
  ghost predicate WithReturns(lines: seq<string>, lines': seq<string>)
  {
    && |lines'| == |lines|
    && forall k :: 0 <= k < |lines| ==> lines'[k] == if k < |lines| - 1 then lines[k] + "\r" else lines[k]
  }

  lemma OneMoreLine(line: string, lines: seq<string>, lines': seq<string>)
    requires WithReturns(lines, lines') && |lines| > 0
    ensures WithReturns([line] + lines, [line + "\r"] + lines')
  {}

  lemma {:induction false} CrlfLines(data: string)
    ensures WithReturns(SplitLines(data), SplitLines(Crlf(data)))
    decreases |data|
  {
    hide Find, SplitLines, Crlf;
    var i := Find(data, '\n');
    if i < |data| {
      var line, rest := data[..i], data[i+1..];
      FirstLine(data, i);
      CrlfLines(rest);
      hide WithReturns;
      SplitFirst(line + "\r", Crlf(rest));
      OneMoreLine(line, SplitLines(rest), SplitLines(Crlf(rest)));
    } else {
      OnlyLine(data);
    }
  }

  /** Lines that say the same hold the same for every key. */
  lemma {:induction false} SameLookups(lines: seq<Line>, lines': seq<Line>, key: string)
    requires |lines| == |lines'|
    requires forall k :: 0 <= k < |lines| ==> lines[k].key == lines'[k].key && lines[k].value == lines'[k].value
    ensures LastIndex(lines, key) == LastIndex(lines', key) && LookupIn(lines, key) == LookupIn(lines', key)
    ensures KeysOf(lines) == KeysOf(lines')
  {
    if lines != [] {
      SameLookups(lines[..|lines|-1], lines'[..|lines|-1], key);
    }
  }

  /** A file with CRLF line ends holds the same keys with the same values. */
  lemma CrlfFileReadsTheSame(data: string, key: string)
    ensures Lookup(Crlf(data), key) == Lookup(data, key)
    ensures KeysOf(ParseLines(Crlf(data))) == KeysOf(ParseLines(data))
  {
    CrlfLines(data);
    hide ParseLine, SplitLines, Crlf, KeysOf, LastIndex;
    var raws, raws' := SplitLines(data), SplitLines(Crlf(data));
    forall k | 0 <= k < |raws|
      ensures ParseLine(raws'[k]).key == ParseLine(raws[k]).key && ParseLine(raws'[k]).value == ParseLine(raws[k]).value
    {
      CarriageReturnAtTheEnd(raws[k]);
    }
    SameLookups(ParseLines(data), ParseLines(Crlf(data)), key);
  }

  // ---------------------------------------------------------------- the keys in file order

  /** The keys are those of these lines, in ascending order, and no other line
      holds one. */
  ghost predicate KeysAt(lines: seq<Line>, keys: seq<string>, at: seq<nat>)
  {
    && |at| == |keys|
    && (forall i, j :: 0 <= i < j < |at| ==> at[i] < at[j])
    && (forall i :: 0 <= i < |at| ==> at[i] < |lines| && lines[at[i]].key == keys[i] != "")
    && (forall k :: 0 <= k < |lines| && lines[k].key != "" ==> k in at)
  }

  lemma KeysAtSnoc(lines: seq<Line>, keys: seq<string>, at: seq<nat>, line: Line)
    requires KeysAt(lines, keys, at) && line.key != ""
    ensures KeysAt(lines + [line], keys + [line.key], at + [|lines|])
  {
    var n := |lines|;
    forall k | 0 <= k < n + 1 && (lines + [line])[k].key != "" ensures k in at + [n] {
      if k == n { assert (at + [n])[|at|] == n; }
    }
  }

  lemma KeysAtSame(lines: seq<Line>, keys: seq<string>, at: seq<nat>, line: Line)
    requires KeysAt(lines, keys, at) && line.key == ""
    ensures KeysAt(lines + [line], keys, at)
  {}

  /** The keys are listed in file order, once for each line that holds one. */
  lemma {:induction false} KeysInFileOrder(lines: seq<Line>) returns (at: seq<nat>)
    ensures KeysAt(lines, KeysOf(lines), at)
  {
    if lines == [] {
      at := [];
    } else {
      hide KeysAt;
      var n := |lines| - 1;
      at := KeysInFileOrder(lines[..n]);
      OneMoreKey(lines);
      hide KeysOf;
      assert lines == lines[..n] + [lines[n]];
      if lines[n].key != "" {
        KeysAtSnoc(lines[..n], KeysOf(lines[..n]), at, lines[n]);
        at := at + [n];
      } else {
        KeysAtSame(lines[..n], KeysOf(lines[..n]), at, lines[n]);
      }
    }
  }
}
