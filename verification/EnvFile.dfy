/** The `.env` parser, editor and printer.

    The functions say what a file means; class `EnvFile` is the program's own
    object, whose methods edit it in place and are proved against them. */
module EnvFiles {
  import opened Text

  /** One line of an `.env` file; comments, blanks and malformed lines have key "". */
  datatype Line = Line(raw: string, key: string, value: string, quoted: string, comment: bool)

  const EXPORT := "export "

  predicate StartsWith(s: string, prefix: string)
  {
    prefix <= s
  }

  /** The value between matching quotes, and the quote. */
  function Unquote(val: string): (string, string)
  {
    if |val| >= 2 && ((val[0] == '"' && val[|val|-1] == '"') || (val[0] == '\'' && val[|val|-1] == '\''))
    then (val[1..|val|-1], [val[0]])
    else (val, "")
  }

  function ParseLine(raw: string): Line
  {
    var trimmed := TrimSpace(raw);
    if trimmed == "" then Line(raw, "", "", "", false)
    else if StartsWith(trimmed, "#") then Line(raw, "", "", "", true)
    else
      var work := if StartsWith(trimmed, EXPORT) then TrimSpace(trimmed[|EXPORT|..]) else trimmed;
      var idx := Find(work, '=');
      if idx == |work| then Line(raw, "", "", "", false)
      else
        var (value, quoted) := Unquote(work[idx+1..]);
        Line(raw, TrimSpace(work[..idx]), value, quoted, false)
  }

  function ParseLines(data: string): (lines: seq<Line>)
    ensures |lines| == |SplitLines(data)|
    ensures forall i :: 0 <= i < |lines| ==> lines[i] == ParseLine(SplitLines(data)[i])
  {
    var raws := SplitLines(data);
    seq(|raws|, i requires 0 <= i < |raws| => ParseLine(raws[i]))
  }

  function Raws(lines: seq<Line>): (raws: seq<string>)
    ensures |raws| == |lines|
    ensures forall i :: 0 <= i < |raws| ==> raws[i] == lines[i].raw
  {
    seq(|lines|, i requires 0 <= i < |lines| => lines[i].raw)
  }

  function Rendered(lines: seq<Line>): string
  {
    if lines == [] then "" else JoinLines(Raws(lines))
  }

  /** The keys in file order, duplicates included. */
  function KeysOf(lines: seq<Line>): seq<string>
  {
    if lines == [] then []
    else
      var init := KeysOf(lines[..|lines|-1]);
      var key := lines[|lines|-1].key;
      if key != "" then init + [key] else init
  }

  /** A plain scan for the last line holding the key; -1 when there is none. */
  function LastIndex(lines: seq<Line>, key: string): (i: int)
    ensures -1 <= i < |lines|
    ensures i >= 0 ==> lines[i].key == key && key != ""
    ensures forall j :: i < j < |lines| && key != "" ==> lines[j].key != key
  {
    if lines == [] then -1
    else if key != "" && lines[|lines|-1].key == key then |lines| - 1
    else LastIndex(lines[..|lines|-1], key)
  }

  /** The key-to-line index: later lines overwrite earlier ones. */
  function IndexOf(lines: seq<Line>): map<string, int>
  {
    if lines == [] then map[]
    else
      var init := IndexOf(lines[..|lines|-1]);
      var key := lines[|lines|-1].key;
      if key != "" then init[key := |lines| - 1] else init
  }

  /** What a file holds for a key. */
  function LookupIn(lines: seq<Line>, key: string): Option<string>
  {
    var i := LastIndex(lines, key);
    if i < 0 then None else Some(lines[i].value)
  }

  function Lookup(data: string, key: string): Option<string>
  {
    LookupIn(ParseLines(data), key)
  }

  /** The line `Set` writes in place of an existing one. */
  function SetLine(line: Line, value: string): Line
  {
    line.(value := value, raw := line.key + "=" + line.quoted + value + line.quoted)
  }

  function SetIn(lines: seq<Line>, key: string, value: string): (r: seq<Line>)
    ensures |r| == |lines|
  {
    var i := LastIndex(lines, key);
    if i < 0 then lines else lines[i := SetLine(lines[i], value)]
  }

  /** A whole edit of a file's bytes: parse, set, render. */
  function Edit(data: string, key: string, value: string): string
  {
    Rendered(SetIn(ParseLines(data), key, value))
  }

  // ---------------------------------------------------------------- the index agrees with a scan

  /** The index holds exactly the keys a scan finds, each at its last line. */
  lemma {:induction false} IndexAgreesWithScan(lines: seq<Line>, key: string)
    ensures key in IndexOf(lines) <==> LastIndex(lines, key) >= 0
    ensures key in IndexOf(lines) ==> IndexOf(lines)[key] == LastIndex(lines, key)
  {
    if lines != [] {
      IndexAgreesWithScan(lines[..|lines|-1], key);
    }
  }

  /** Replacing a line by one with the same key changes neither index nor keys. */
  lemma {:induction false} SameKeySameIndex(lines: seq<Line>, i: nat, line: Line)
    requires i < |lines| && line.key == lines[i].key
    ensures IndexOf(lines[i := line]) == IndexOf(lines)
    ensures KeysOf(lines[i := line]) == KeysOf(lines)
    ensures forall key :: LastIndex(lines[i := line], key) == LastIndex(lines, key)
  {
    var n := |lines| - 1;
    var init, init' := lines[..n], lines[i := line][..n];
    if i < n {
      assert init' == init[i := line];
      SameKeySameIndex(init, i, line);
    } else {
      assert init' == init;
    }
    OneMoreKey(lines);
    OneMoreKey(lines[i := line]);
    hide IndexOf, KeysOf, LastIndex;
  }

  /** What the last line adds to index, keys and scan. */
  lemma OneMoreKey(lines: seq<Line>)
    requires lines != []
    ensures var n := |lines| - 1; var key := lines[n].key;
            && IndexOf(lines) == (if key != "" then IndexOf(lines[..n])[key := n] else IndexOf(lines[..n]))
            && KeysOf(lines) == (if key != "" then KeysOf(lines[..n]) + [key] else KeysOf(lines[..n]))
            && forall k :: LastIndex(lines, k) == if k != "" && key == k then n else LastIndex(lines[..n], k)
  {}

  // ---------------------------------------------------------------- printing what was parsed

  lemma {:induction false} RenderAfterParse(data: string)
    ensures Rendered(ParseLines(data)) == data
  {
    assert Raws(ParseLines(data)) == SplitLines(data);
    JoinAfterSplit(data);
  }

  // ---------------------------------------------------------------- reading an edit back

  predicate KeyChar(c: char)
  {
    c == '_' || 'A' <= c <= 'Z' || 'a' <= c <= 'z' || '0' <= c <= '9'
  }

  /** The shape `NewEnvKey` accepts. */
  predicate ValidKey(key: string)
  {
    && key != ""
    && !('0' <= key[0] <= '9')
    && forall i :: 0 <= i < |key| ==> KeyChar(key[i])
  }

  /** The base64url alphabet of RFC 4648 section 5, which generated values use. */
  predicate Base64Url(value: string)
  {
    forall i :: 0 <= i < |value| ==> KeyChar(value[i]) || value[i] == '-'
  }

  predicate QuoteStyle(quoted: string)
  {
    quoted == "" || quoted == "\"" || quoted == "'"
  }

  /** The values a line can carry: no line feed, and for an unquoted line no
      white space at the end and no pair of quotes around the whole value. */
  predicate Representable(quoted: string, value: string)
  {
    && '\n' !in value
    && (quoted != "" || (TrimRight(value) == value && Unquote(value).1 == ""))
  }

  lemma {:induction false} ParsedQuoteStyle(raw: string)
    ensures QuoteStyle(ParseLine(raw).quoted)
  {}

  lemma {:induction false} ValidKeyIsSolid(key: string, rest: string)
    requires ValidKey(key)
    ensures '=' !in key && TrimSpace(key) == key
    ensures TrimSpace(key + "=" + rest) == key + "=" + TrimRight(rest)
    ensures !StartsWith(key + "=" + rest, "#") && !StartsWith(key + "=" + rest, EXPORT)
  {
    hide TrimRight, TrimLeft;
    KeyIsTrimmed(key);
    AssignmentIsTrimmed(key, rest);
    AssignmentStarts(key, rest);
  }

  lemma KeyIsTrimmed(key: string)
    requires ValidKey(key)
    ensures '=' !in key && TrimSpace(key) == key
  {
    assert KeyChar(key[0]) && KeyChar(key[|key|-1]);
    assert SpaceAtBack(key) == 0 && SpaceAtFront(key) == 0;
  }

  lemma AssignmentIsTrimmed(key: string, rest: string)
    requires ValidKey(key)
    ensures TrimSpace(key + "=" + rest) == key + "=" + TrimRight(rest)
  {
    var s := key + "=" + rest;
    assert s[0] == key[0] && KeyChar(key[0]) && Solid(key[0]);
    assert SpaceAtFront(s) == 0;
    TrimRightStopsAtSolid(key, '=', rest);
    hide TrimRight;
  }

  lemma AssignmentStarts(key: string, rest: string)
    requires ValidKey(key)
    ensures !StartsWith(key + "=" + rest, "#") && !StartsWith(key + "=" + rest, EXPORT)
  {
    var s := key + "=" + rest;
    assert s[0] == key[0] && KeyChar(key[0]);
    assert |key| > 6 ==> KeyChar(s[6]);
    assert |key| < 6 ==> s[|key|] == '=' && EXPORT[|key|] != '=';
    assert |key| == 6 ==> s[6] == '=';
  }

  /** How any text after `key=` is read. */
  lemma {:induction false} ParseAssignment(key: string, body: string)
    requires ValidKey(key)
    ensures var (value, quoted) := Unquote(TrimRight(body));
            ParseLine(key + "=" + body) == Line(key + "=" + body, key, value, quoted, false)
  {
    var rest := TrimRight(body);
    var trimmed := key + "=" + rest;
    ValidKeyIsSolid(key, body);
    ValidKeyIsSolid(key, rest);
    FindAfterPrefix(key, '=', rest);
    assert trimmed[..|key|] == key;
    assert trimmed[|key|+1..] == rest;
  }

  lemma {:induction false} QuotedReadsBack(quoted: string, value: string)
    requires quoted == "\"" || quoted == "'"
    ensures Unquote(TrimRight(quoted + value + quoted)) == (value, quoted)
  {
    var body := quoted + value + quoted;
    TrimRightStopsAtSolid(quoted + value, quoted[0], "");
    assert body == quoted + value + [quoted[0]] + "" == quoted + value + [quoted[0]];
    assert TrimRight(body) == body;
    assert body[1..|body|-1] == value;
  }

  lemma {:induction false} UnquotedReadsBack(value: string)
    requires OneLine(value)
    ensures Representable("", value) ==> Unquote(TrimRight(value)) == (value, "")
    ensures !Representable("", value) ==> |Unquote(TrimRight(value)).0| < |value|
  {}

  /** Exactly which values an edited line gives back when it is read again. */
  lemma {:induction false} SetLineReadsBack(line: Line, value: string)
    requires ValidKey(line.key) && QuoteStyle(line.quoted) && !line.comment
    requires '\n' !in value
    ensures ParseLine(SetLine(line, value).raw).key == line.key
    ensures Representable(line.quoted, value) ==> ParseLine(SetLine(line, value).raw) == SetLine(line, value)
    ensures !Representable(line.quoted, value) ==> ParseLine(SetLine(line, value).raw).value != value
  {
    var body := line.quoted + value + line.quoted;
    assert SetLine(line, value).raw == line.key + "=" + body;
    ParseAssignment(line.key, body);
    if line.quoted == "" {
      UnquotedReadsBack(value);
      assert body == value;
    } else {
      QuotedReadsBack(line.quoted, value);
    }
  }

  lemma {:induction false} Base64UrlIsRepresentable(quoted: string, value: string)
    requires Base64Url(value)
    ensures Representable(quoted, value)
  {
    if value != [] {
      assert KeyChar(value[|value|-1]) || value[|value|-1] == '-';
    }
  }

  // ---------------------------------------------------------------- the edit round trip

  lemma {:induction false} WorkIsOneLine(raw: string)
    requires OneLine(raw)
    ensures OneLine(TrimSpace(raw))
    ensures |TrimSpace(raw)| >= |EXPORT| ==> OneLine(TrimSpace(TrimSpace(raw)[|EXPORT|..]))
  {
    TrimKeepsBytes(raw, '\n');
    var trimmed := TrimSpace(raw);
    if |trimmed| >= |EXPORT| {
      TrimKeepsBytes(trimmed[|EXPORT|..], '\n');
    }
  }

  lemma {:induction false} UnquoteKeepsBytes(val: string, c: char)
    requires c !in val
    ensures c !in Unquote(val).0
  {}

  lemma {:induction false} ParsedValueIsOneLine(raw: string)
    requires OneLine(raw)
    ensures OneLine(ParseLine(raw).value)
  {
    var trimmed := TrimSpace(raw);
    WorkIsOneLine(raw);
    var work := if StartsWith(trimmed, EXPORT) then TrimSpace(trimmed[|EXPORT|..]) else trimmed;
    assert OneLine(work);
    var idx := Find(work, '=');
    if idx < |work| {
      UnquoteKeepsBytes(work[idx+1..], '\n');
    }
  }

  /** A value read from a file never holds a line feed. */
  lemma {:induction false} NoLineFeedReadBack(data: string, key: string)
    ensures Lookup(data, key).Some? ==> '\n' !in Lookup(data, key).value
  {
    var i := LastIndex(ParseLines(data), key);
    if i >= 0 {
      SplitGivesSingleLines(data);
      ParsedValueIsOneLine(SplitLines(data)[i]);
    }
  }

  /** Editing replaces the text of one line and leaves the others as they were. */
  lemma {:induction false} EditedLines(data: string, key: string, value: string)
    requires ValidKey(key) && OneLine(value)
    requires LastIndex(ParseLines(data), key) >= 0
    ensures var lines, i := ParseLines(data), LastIndex(ParseLines(data), key);
            ParseLines(Edit(data, key, value)) == lines[i := ParseLine(SetLine(lines[i], value).raw)]
  {
    var lines, i := ParseLines(data), LastIndex(ParseLines(data), key);
    SplitGivesSingleLines(data);
    ParsedQuoteStyle(SplitLines(data)[i]);
    NewRawIsOneLine(lines[i], value);
    RawsAreTheSplit(data);
    SplitOfRendered(lines, i, SetLine(lines[i], value));
    var raws := SplitLines(Edit(data, key, value));
    assert raws == SplitLines(data)[i := SetLine(lines[i], value).raw];
    SameSplitSameLines(SplitLines(data), raws, i, lines, ParseLines(Edit(data, key, value)));
  }

  lemma {:induction false} RawsAreTheSplit(data: string)
    ensures Raws(ParseLines(data)) == SplitLines(data)
  {}

  lemma {:induction false} SplitOfRendered(lines: seq<Line>, i: nat, line: Line)
    requires i < |lines| && OneLine(line.raw)
    requires forall k :: 0 <= k < |lines| ==> OneLine(Raws(lines)[k])
    ensures SplitLines(Rendered(lines[i := line])) == Raws(lines)[i := line.raw]
  {
    assert Raws(lines[i := line]) == Raws(lines)[i := line.raw];
    SplitAfterJoin(Raws(lines)[i := line.raw]);
  }

  lemma {:induction false} SameSplitSameLines(raws: seq<string>, raws': seq<string>, i: nat,
                                              lines: seq<Line>, lines': seq<Line>)
    requires |lines| == |raws| == |raws'| == |lines'| && i < |raws|
    requires raws' == raws[i := raws'[i]]
    requires forall k :: 0 <= k < |raws| ==> lines[k] == ParseLine(raws[k])
    requires forall k :: 0 <= k < |raws'| ==> lines'[k] == ParseLine(raws'[k])
    ensures lines' == lines[i := ParseLine(raws'[i])]
  {}

  lemma {:induction false} NewRawIsOneLine(line: Line, value: string)
    requires ValidKey(line.key) && QuoteStyle(line.quoted) && OneLine(value)
    ensures OneLine(SetLine(line, value).raw)
  {
    assert forall j :: 0 <= j < |line.key| ==> KeyChar(line.key[j]);
  }

  /** Setting a key the file does not hold is a no-op, down to the byte. */
  lemma {:induction false} EditOfAbsentKey(data: string, key: string, value: string)
    requires Lookup(data, key) == None
    ensures Edit(data, key, value) == data
  {
    RenderAfterParse(data);
  }

  /** Reading an edited file, for any bytes, any valid key it holds and any
      representable value: the same lines in the same order with the same keys
      and quote style, the edited line carrying the new value. */
  lemma {:induction false} EditRoundTrip(data: string, key: string, value: string)
    requires ValidKey(key) && Lookup(data, key).Some?
    requires Representable(ParseLines(data)[LastIndex(ParseLines(data), key)].quoted, value)
    ensures var lines, i := ParseLines(data), LastIndex(ParseLines(data), key);
            ParseLines(Edit(data, key, value)) == lines[i := SetLine(lines[i], value)]
    ensures Lookup(Edit(data, key, value), key) == Some(value)
    ensures KeysOf(ParseLines(Edit(data, key, value))) == KeysOf(ParseLines(data))
    ensures forall other :: other != key ==> Lookup(Edit(data, key, value), other) == Lookup(data, other)
  {
    var lines, i := ParseLines(data), LastIndex(ParseLines(data), key);
    ParsedQuoteStyle(SplitLines(data)[i]);
    ParsedKeyIsNoComment(SplitLines(data)[i]);
    EditedLines(data, key, value);
    SetLineReadsBack(lines[i], value);
    SameKeySameIndex(lines, i, SetLine(lines[i], value));
  }

  lemma {:induction false} ParsedKeyIsNoComment(raw: string)
    ensures ParseLine(raw).key != "" ==> !ParseLine(raw).comment
  {}

  /** The value comes back exactly when it is representable on its line. */
  lemma {:induction false} EditReadsBackIffRepresentable(data: string, key: string, value: string)
    requires ValidKey(key) && Lookup(data, key).Some?
    ensures Lookup(Edit(data, key, value), key) == Some(value)
            <==> Representable(ParseLines(data)[LastIndex(ParseLines(data), key)].quoted, value)
  {
    var lines, i := ParseLines(data), LastIndex(ParseLines(data), key);
    if Representable(lines[i].quoted, value) {
      EditRoundTrip(data, key, value);
    } else if OneLine(value) {
      ParsedQuoteStyle(SplitLines(data)[i]);
      ParsedKeyIsNoComment(SplitLines(data)[i]);
      EditedLines(data, key, value);
      SetLineReadsBack(lines[i], value);
      SameKeySameIndex(lines, i, ParseLine(SetLine(lines[i], value).raw));
    } else {
      NoLineFeedReadBack(Edit(data, key, value), key);
    }
  }

  /** A generated value always comes back, whatever the quote style, and no
      other key is affected. */
  lemma {:induction false} GeneratedValueReadsBack(data: string, key: string, value: string)
    requires ValidKey(key) && Lookup(data, key).Some? && Base64Url(value)
    ensures Lookup(Edit(data, key, value), key) == Some(value)
    ensures forall other :: other != key ==> Lookup(Edit(data, key, value), other) == Lookup(data, other)
  {
    Base64UrlIsRepresentable(ParseLines(data)[LastIndex(ParseLines(data), key)].quoted, value);
    EditRoundTrip(data, key, value);
  }

  // ---------------------------------------------------------------- what an edit does to the formatting

  /** A line without anything around the key: no white space at either end or
      before the `=`, and no `export`. */
  predicate PlainLine(raw: string)
  {
    && TrimSpace(raw) == raw
    && !StartsWith(raw, EXPORT)
    && TrimSpace(raw[..Find(raw, '=')]) == raw[..Find(raw, '=')]
  }

  lemma UnquoteRejoins(val: string)
    ensures Unquote(val).1 + Unquote(val).0 + Unquote(val).1 == val
  {}

  /** Writing a line's own value back leaves the line alone exactly when the
      line is plain; then a new value changes only the text between the quotes. */
  lemma {:induction false} FormattingKeptExactlyWhenPlain(raw: string)
    requires ValidKey(ParseLine(raw).key)
    ensures SetLine(ParseLine(raw), ParseLine(raw).value).raw == raw <==> PlainLine(raw)
    ensures PlainLine(raw) ==>
              forall value :: SetLine(ParseLine(raw), value).raw
                              == raw[..Find(raw, '=')] + "=" + ParseLine(raw).quoted + value + ParseLine(raw).quoted
  {
    if PlainLine(raw) {
      PlainLineIsKept(raw);
    } else if SetLine(ParseLine(raw), ParseLine(raw).value).raw == raw {
      KeptLineIsPlain(raw);
    }
  }

  /** What ParseLine makes of a line that holds an assignment. */
  lemma ParseWork(raw: string, trimmed: string, work: string)
    requires TrimSpace(raw) == trimmed && trimmed != "" && !StartsWith(trimmed, "#")
    requires work == if StartsWith(trimmed, EXPORT) then TrimSpace(trimmed[|EXPORT|..]) else trimmed
    requires Find(work, '=') < |work|
    ensures var idx := Find(work, '=');
            var (value, quoted) := Unquote(work[idx+1..]);
            ParseLine(raw) == Line(raw, TrimSpace(work[..idx]), value, quoted, false)
  {
    hide TrimSpace, Find, Unquote, StartsWith;
  }

  lemma KeyMeansAssignment(raw: string)
    requires ParseLine(raw).key != "" && TrimSpace(raw) == raw && !StartsWith(raw, EXPORT)
    ensures raw != "" && !StartsWith(raw, "#") && Find(raw, '=') < |raw|
  {
    hide TrimSpace, Find, Unquote;
  }

  lemma JoinAtEquals(raw: string, idx: nat, body: string)
    requires idx < |raw| && raw[idx] == '=' && raw[idx+1..] == body
    ensures raw[..idx] + "=" + body == raw
  {}

  lemma PlainLineIsKept(raw: string)
    requires ValidKey(ParseLine(raw).key) && PlainLine(raw)
    ensures SetLine(ParseLine(raw), ParseLine(raw).value).raw == raw
    ensures ParseLine(raw).key == raw[..Find(raw, '=')]
  {
    hide TrimSpace, Unquote, ParseLine, Find, StartsWith;
    var idx := Find(raw, '=');
    KeyMeansAssignment(raw);
    ParseWork(raw, raw, raw);
    var (value, quoted) := Unquote(raw[idx+1..]);
    UnquoteRejoins(raw[idx+1..]);
    JoinAtEquals(raw, idx, quoted + value + quoted);
    Regroup(raw[..idx] + "=", quoted, value);
  }

  lemma Regroup(a: string, quoted: string, value: string)
    ensures a + quoted + value + quoted == a + (quoted + value + quoted)
  {}

  lemma KeptLineIsPlain(raw: string)
    requires ValidKey(ParseLine(raw).key) && SetLine(ParseLine(raw), ParseLine(raw).value).raw == raw
    ensures PlainLine(raw)
  {
    hide TrimSpace, TrimRight, Unquote, ParseLine, ValidKey, Find, StartsWith;
    var line := ParseLine(raw);
    var body := line.quoted + line.value + line.quoted;
    Regroup(line.key + "=", line.quoted, line.value);
    assert raw == line.key + "=" + body;
    ParseAssignment(line.key, body);
    UnquoteRejoins(TrimRight(body));
    ValidKeyIsSolid(line.key, body);
    FindAfterPrefix(line.key, '=', body);
    assert raw[..|line.key|] == line.key;
  }

  /** Writing back the value a file holds leaves every byte exactly when the
      last line of the key is plain. */
  lemma {:induction false} EditKeepsFormattingExactlyWhenPlain(data: string, key: string)
    requires ValidKey(key) && Lookup(data, key).Some?
    ensures Edit(data, key, Lookup(data, key).value) == data
            <==> PlainLine(SplitLines(data)[LastIndex(ParseLines(data), key)])
  {
    hide ParseLine, Rendered, PlainLine, ValidKey, TrimSpace, Find;
    var lines, i, value := ParseLines(data), LastIndex(ParseLines(data), key), Lookup(data, key).value;
    FormattingKeptExactlyWhenPlain(SplitLines(data)[i]);
    NoLineFeedReadBack(data, key);
    EditedLines(data, key, value);
    RenderAfterParse(data);
    ParsedRaw(SetLine(lines[i], value).raw);
    ParsedRaw(SplitLines(data)[i]);
    assert lines[i].value == value;
    hide ParseLines, LastIndex, IndexOf;
    if SetLine(lines[i], value).raw == lines[i].raw {
      assert lines[i := SetLine(lines[i], value)] == lines;
    } else {
      assert ParseLines(Edit(data, key, value))[i].raw != lines[i].raw;
    }
  }

  lemma ParsedRaw(raw: string)
    ensures ParseLine(raw).raw == raw
  {
    hide TrimSpace, Find, Unquote;
  }

  /** For instance, any edit of an exported entry drops the `export`. */
  lemma {:induction false} EditDropsExport(key: string, current: string, value: string)
    requires ValidKey(key) && Base64Url(current)
    ensures Edit(EXPORT + key + "=" + current, key, value) == key + "=" + value
    ensures Edit("export KEY=old", "KEY", "new") == "KEY=new"
  {
    hide ParseLine, Lookup, Edit, SetLine;
    ExportedLine(key, current);
    EditUnquoted(EXPORT + key + "=" + current, key, current, value);
    assert EXPORT + "KEY" + "=" + "old" == "export KEY=old" && "KEY" + "=" + "new" == "KEY=new";
    assert ValidKey("KEY") && Base64Url("old") by { ExampleKey(); }
    ExportedLine("KEY", "old");
    EditUnquoted("export KEY=old", "KEY", "old", "new");
  }

  lemma ExampleKey()
    ensures ValidKey("KEY") && Base64Url("old") && Base64Url("new")
  {}

  /** Another: white space before the `=` goes too. */
  lemma {:induction false} EditDropsBlanks(key: string, current: string, value: string)
    requires ValidKey(key) && key != "export" && Base64Url(current)
    ensures Edit(key + " =" + current, key, value) == key + "=" + value
  {
    hide ParseLine, Lookup, Edit, SetLine;
    SpacedLine(key, current);
    EditUnquoted(key + " =" + current, key, current, value);
  }

  lemma NoQuotes(a: string, value: string)
    ensures a + "" + value + "" == a + value
  {}

  lemma EditUnquoted(data: string, key: string, current: string, value: string)
    requires OneLine(data) && key != "" && ParseLine(data) == Line(data, key, current, "", false)
    ensures Edit(data, key, value) == key + "=" + value
  {
    hide ParseLine, Edit;
    EditOfOneLine(data, key, value);
    NoQuotes(key + "=", value);
  }

  lemma ExportedLine(key: string, current: string)
    requires ValidKey(key) && Base64Url(current)
    ensures OneLine(EXPORT + key + "=" + current)
    ensures ParseLine(EXPORT + key + "=" + current) == Line(EXPORT + key + "=" + current, key, current, "", false)
  {
    hide TrimSpace, TrimRight, Find, Unquote, ParseLine;
    var rest := key + "=" + current;
    var raw := EXPORT + rest;
    assert raw == EXPORT + key + "=" + current;
    UnquotedText(current);
    ValidKeyIsSolid(key, current);
    AssignmentIsOneLine(EXPORT, key, "=", current);
    TrimmedText(EXPORT + key, '=', current);
    FindAfterPrefix(key, '=', current);
    assert raw[|EXPORT|..] == rest && rest[..|key|] == key && rest[|key|+1..] == current;
    assert raw[0] == 'e';
    hide ValidKey;
    ParseWork(raw, raw, rest);
  }

  lemma SpacedLine(key: string, current: string)
    requires ValidKey(key) && key != "export" && Base64Url(current)
    ensures OneLine(key + " =" + current)
    ensures ParseLine(key + " =" + current) == Line(key + " =" + current, key, current, "", false)
  {
    hide TrimSpace, TrimRight, Find, Unquote, ParseLine;
    var raw := key + " =" + current;
    assert raw == (key + " ") + "=" + current;
    assert KeyChar(key[0]);
    UnquotedText(current);
    ValidKeyIsSolid(key, current);
    AssignmentIsOneLine("", key, " =", current);
    assert "" + key + " =" + current == raw;
    TrimmedText(key + " ", '=', current);
    BlankAfterKey(key);
    FindAfterPrefix(key + " ", '=', current);
    assert raw[..|key|+1] == key + " " && raw[|key|+2..] == current;
    NotExport(key, current);
    hide ValidKey;
    ParseWork(raw, raw, raw);
  }

  lemma NotExport(key: string, current: string)
    requires ValidKey(key) && key != "export"
    ensures !StartsWith(key + " =" + current, EXPORT) && !StartsWith(key + " =" + current, "#")
  {
    var raw := key + " =" + current;
    assert raw[0] == key[0] && KeyChar(key[0]);
    assert |key| < 6 ==> raw[|key|] == ' ' && EXPORT[|key|] != ' ';
    assert |key| > 6 ==> KeyChar(key[6]) && raw[6] == key[6];
    assert |key| == 6 ==> raw[..6] == key && EXPORT[..6] == "export";
  }

  lemma BlankAfterKey(key: string)
    requires ValidKey(key)
    ensures TrimSpace(key + " ") == key
  {
    var s := key + " ";
    assert s[0] == key[0] && KeyChar(key[0]) && KeyChar(key[|key|-1]);
    assert SpaceAtFront(s) == 0 && SpaceAtBack(s) == 1 && SpaceAtBack(key) == 0;
    assert s[..|s|-1] == key && TrimRight(key) == key;
  }

  lemma UnquotedText(current: string)
    requires Base64Url(current)
    ensures TrimRight(current) == current && Unquote(current) == (current, "")
  {
    Base64UrlIsRepresentable("", current);
  }

  lemma AssignmentIsOneLine(prefix: string, key: string, equals: string, current: string)
    requires OneLine(prefix) && ValidKey(key) && OneLine(equals) && Base64Url(current)
    ensures OneLine(prefix + key + equals + current)
  {
    assert OneLine(key) && OneLine(current);
  }

  /** A file of one plain assignment. */
  lemma AssignmentEdits(key: string, current: string, value: string)
    requires ValidKey(key) && Base64Url(current)
    ensures Lookup(key + "=" + current, key) == Some(current)
    ensures Edit(key + "=" + current, key, value) == key + "=" + value
  {
    hide ParseLine, Lookup, Edit, Find;
    UnquotedText(current);
    ParseAssignment(key, current);
    AssignmentIsOneLine("", key, "=", current);
    assert "" + key + "=" + current == key + "=" + current;
    LookupOfOneLine(key + "=" + current, key);
    EditUnquoted(key + "=" + current, key, current, value);
  }

  lemma LookupOfOneLine(data: string, key: string)
    requires OneLine(data) && ParseLine(data).key == key != ""
    ensures Lookup(data, key) == Some(ParseLine(data).value)
  {
    hide ParseLine;
    assert SplitLines(data) == [data];
    assert ParseLines(data) == [ParseLine(data)];
    assert LastIndex(ParseLines(data), key) == 0;
  }

  lemma EditOfOneLine(data: string, key: string, value: string)
    requires OneLine(data) && ParseLine(data).key == key != ""
    ensures Edit(data, key, value) == SetLine(ParseLine(data), value).raw
  {
    hide ParseLine;
    var lines := ParseLines(data);
    assert SplitLines(data) == [data];
    assert lines == [ParseLine(data)];
    assert LastIndex(lines, key) == 0;
    assert Raws([SetLine(ParseLine(data), value)]) == [SetLine(ParseLine(data), value).raw];
    assert lines[0 := SetLine(lines[0], value)] == [SetLine(ParseLine(data), value)];
  }

  // ---------------------------------------------------------------- the object the program edits

  class EnvFile {
    var lines: seq<Line>
    var index: map<string, int>

    /** The index is the one a rebuild would give. */
    ghost predicate Valid()
      reads this
    {
      index == IndexOf(lines)
    }

    constructor Parse(data: string)
      ensures Valid() && lines == ParseLines(data)
    {
      var raws := SplitLines(data);
      ghost var all := ParseLines(data);
      lines, index := [], map[];
      new;
      for i := 0 to |raws|
        invariant lines == all[..i] && index == IndexOf(lines)
      {
        var line := ParseLine(raws[i]);
        assert line == all[i];
        TakeSnoc(all, i);
        IndexSnoc(lines, line);
        lines := lines + [line];
        if line.key != "" {
          index := index[line.key := i];
        }
      }
    }

    method Get(key: string) returns (value: Option<string>)
      requires Valid()
      ensures value == LookupIn(lines, key)
    {
      IndexAgreesWithScan(lines, key);
      if key in index {
        value := Some(lines[index[key]].value);
      } else {
        value := None;
      }
    }

    method Reindex()
      modifies this`index
      ensures Valid()
    {
      index := map[];
      for i := 0 to |lines|
        invariant index == IndexOf(lines[..i])
      {
        assert lines[..i+1][..i] == lines[..i];
        if lines[i].key != "" {
          index := index[lines[i].key := i];
        }
      }
      assert lines[..|lines|] == lines;
    }

    method Keys() returns (keys: seq<string>)
      ensures keys == KeysOf(lines)
    {
      keys := [];
      for i := 0 to |lines|
        invariant keys == KeysOf(lines[..i])
      {
        assert lines[..i+1][..i] == lines[..i];
        if lines[i].key != "" {
          keys := keys + [lines[i].key];
        }
      }
      assert lines[..|lines|] == lines;
    }

    /** Edits one line in place; the index needs no rebuild. */
    method Set(key: string, value: string)
      requires Valid()
      modifies this`lines
      ensures Valid() && lines == SetIn(old(lines), key, value)
    {
      IndexAgreesWithScan(lines, key);
      if key !in index {
        return;
      }
      var i := index[key];
      SameKeySameIndex(lines, i, SetLine(lines[i], value));
      var line := lines[i].(value := value);
      if line.quoted != "" {
        line := line.(raw := line.key + "=" + line.quoted + value + line.quoted);
      } else {
        line := line.(raw := line.key + "=" + value);
        assert line.key + "=" + "" + value + "" == line.key + "=" + value;
      }
      lines := lines[i := line];
    }

    method Render() returns (text: string)
      ensures text == Rendered(lines)
    {
      text := "";
      for i := 0 to |lines|
        invariant i == 0 ==> text == ""
        invariant i > 0 ==> text == if i < |lines| then Rendered(lines[..i]) + "\n" else Rendered(lines)
      {
        ghost var before := text;
        text := text + lines[i].raw;
        RenderedSnoc(lines[..i], lines[i]);
        assert lines[..i] + [lines[i]] == lines[..i+1];
        if i < |lines| - 1 {
          text := text + "\n";
        } else {
          assert lines[..i+1] == lines;
        }
      }
    }
  }

  lemma {:induction false} IndexSnoc(lines: seq<Line>, line: Line)
    ensures IndexOf(lines + [line])
         == if line.key == "" then IndexOf(lines) else IndexOf(lines)[line.key := |lines|]
  {
    assert (lines + [line])[..|lines|] == lines;
  }

  lemma {:induction false} RenderedSnoc(lines: seq<Line>, line: Line)
    ensures Rendered(lines + [line]) == if lines == [] then line.raw else Rendered(lines) + "\n" + line.raw
  {
    var raws := Raws(lines);
    assert Raws(lines + [line]) == raws + [line.raw];
    if lines != [] { JoinSnoc(raws, line.raw); }
  }

  lemma {:induction false} JoinSnoc(raws: seq<string>, raw: string)
    requires |raws| > 0
    ensures JoinLines(raws + [raw]) == JoinLines(raws) + "\n" + raw
  {
    if |raws| > 1 {
      assert (raws + [raw])[1..] == raws[1..] + [raw];
      JoinSnoc(raws[1..], raw);
    } else {
      assert (raws + [raw])[1..] == [raw];
    }
  }
}
