/** The statement that changes a MySQL password, and how the server reads it. */
module SqlText {
  import opened Text

  /** Escapes a value for a single-quoted literal: backslash and quote. */
  function Escape(s: string): string
  {
    if s == "" then ""
    else (if s[0] == '\\' then "\\\\" else if s[0] == '\'' then "\\'" else [s[0]]) + Escape(s[1..])
  }

  function Quoted(s: string): string
  {
    "'" + Escape(s) + "'"
  }

  const ALTER := "ALTER USER "
  const IDENTIFIED := " IDENTIFIED BY "

  function Statement(user: string, host: string, password: string): string
  {
    ALTER + (Quoted(user) + "@" + Quoted(host)) + IDENTIFIED + Quoted(password)
  }

  // ---------------------------------------------------------------- the server's reading

  /** What an escape sequence stands for ("String Literals" in the MySQL
      Reference Manual): the wildcards keep their backslash, a few letters name
      control characters, any other character stands for itself. */
  function Unescape(c: char): string
  {
    if c == '0' then "\0"
    else if c == 'b' then ['\U{08}']
    else if c == 'n' then "\n"
    else if c == 'r' then "\r"
    else if c == 't' then "\t"
    else if c == 'Z' then ['\U{1A}']
    else if c == '%' || c == '_' then ['\\', c]
    else [c]
  }

  /** Reads the rest of a single-quoted literal, after its opening quote: the
      value, and the text after the closing quote. */
  function ReadLiteral(s: string): Option<(string, string)>
    decreases |s|
  {
    if s == "" then None
    else if s[0] == '\\' then
      if |s| < 2 then None
      else match ReadLiteral(s[2..])
        case None => None
        case Some((value, rest)) => Some((Unescape(s[1]) + value, rest))
    else if s[0] == '\'' then
      if |s| >= 2 && s[1] == '\'' then
        match ReadLiteral(s[2..])
        case None => None
        case Some((value, rest)) => Some(("'" + value, rest))
      else Some(("", s[1..]))
    else
      match ReadLiteral(s[1..])
      case None => None
      case Some((value, rest)) => Some(([s[0]] + value, rest))
  }

  /** The text after an expected prefix. */
  function Expect(s: string, prefix: string): Option<string>
  {
    if prefix <= s then Some(s[|prefix|..]) else None
  }

  function ReadQuoted(s: string): Option<(string, string)>
  {
    if "'" <= s then ReadLiteral(s[1..]) else None
  }

  datatype Alter = Alter(user: string, host: string, password: string)

  /** Reads the whole statement. */
  function ReadStatement(s: string): Option<Alter>
  {
    var a := Expect(s, ALTER);
    if a.None? then None else
    var user := ReadQuoted(a.value);
    if user.None? then None else
    var at := Expect(user.value.1, "@");
    if at.None? then None else
    var host := ReadQuoted(at.value);
    if host.None? then None else
    var identified := Expect(host.value.1, IDENTIFIED);
    if identified.None? then None else
    var password := ReadQuoted(identified.value);
    if password.None? || password.value.1 != "" then None
    else Some(Alter(user.value.0, host.value.0, password.value.0))
  }

  // ---------------------------------------------------------------- the round trip

  /** An escaped value is read back whole, and the reading stops at its closing
      quote, provided what follows does not start with another quote. */
  lemma {:induction false} LiteralReadsBack(s: string, rest: string)
    requires rest == "" || rest[0] != '\''
    ensures ReadLiteral(Escape(s) + "'" + rest) == Some((s, rest))
  {
    if s == "" {
      assert ("'" + rest)[1..] == rest;
    } else {
      LiteralReadsBack(s[1..], rest);
      OneCharReadsBack(s[0], s[1..], rest);
      hide ReadLiteral, Escape;
      assert s == [s[0]] + s[1..];
    }
  }

  lemma OneCharReadsBack(c: char, s: string, rest: string)
    requires ReadLiteral(Escape(s) + "'" + rest) == Some((s, rest))
    ensures ReadLiteral(Escape([c] + s) + "'" + rest) == Some(([c] + s, rest))
  {
    var tail := Escape(s) + "'" + rest;
    EscapeCons(c, s);
    hide ReadLiteral, Escape;
    if c == '\\' || c == '\'' {
      EscapedReadsBack(c, tail);
      assert Escape([c] + s) + "'" + rest == "\\" + [c] + tail;
    } else {
      PlainReadsBack(c, tail);
      assert Escape([c] + s) + "'" + rest == [c] + tail;
    }
  }

  lemma EscapeCons(c: char, s: string)
    ensures Escape([c] + s) == (if c == '\\' || c == '\'' then "\\" + [c] else [c]) + Escape(s)
  {
    assert ([c] + s)[1..] == s;
  }

  lemma EscapedReadsBack(c: char, tail: string)
    requires c == '\\' || c == '\''
    ensures ReadLiteral("\\" + [c] + tail)
         == if ReadLiteral(tail).None? then None
            else Some(([c] + ReadLiteral(tail).value.0, ReadLiteral(tail).value.1))
  {
    assert ("\\" + [c] + tail)[2..] == tail;
  }

  lemma PlainReadsBack(c: char, tail: string)
    requires c != '\\' && c != '\''
    ensures ReadLiteral([c] + tail)
         == if ReadLiteral(tail).None? then None
            else Some(([c] + ReadLiteral(tail).value.0, ReadLiteral(tail).value.1))
  {
    assert ([c] + tail)[1..] == tail;
  }

  lemma QuotedReadsBack(s: string, rest: string)
    requires rest == "" || rest[0] != '\''
    ensures ReadQuoted(Quoted(s) + rest) == Some((s, rest))
  {
    LiteralReadsBack(s, rest);
    var text := Quoted(s) + rest;
    assert text[1..] == Escape(s) + "'" + rest;
  }

  lemma ExpectPrefix(prefix: string, rest: string)
    ensures Expect(prefix + rest, prefix) == Some(rest)
  {
    assert (prefix + rest)[|prefix|..] == rest;
  }

  /** The server reads exactly the user, host and password that were meant, for
      all strings: no value can end its literal early or alter the statement. */
  lemma StatementReadsBack(user: string, host: string, password: string)
    ensures ReadStatement(Statement(user, host, password)) == Some(Alter(user, host, password))
  {
    hide Quoted, ReadQuoted, Expect;
    var p := Quoted(password);
    var d := IDENTIFIED + p;
    var c := Quoted(host) + d;
    var b := "@" + c;
    var a := Quoted(user) + b;
    assert Statement(user, host, password) == ALTER + a;
    ExpectPrefix(ALTER, a);
    QuotedReadsBack(user, b);
    ExpectPrefix("@", c);
    QuotedReadsBack(host, d);
    ExpectPrefix(IDENTIFIED, p);
    QuotedReadsBack(password, "");
    assert p + "" == p;
  }

  predicate NeedsNoEscape(s: string)
  {
    '\\' !in s && '\'' !in s
  }

  lemma {:induction false} NothingIsEscaped(s: string)
    requires NeedsNoEscape(s)
    ensures Escape(s) == s
  {
    if s != "" { NothingIsEscaped(s[1..]); }
  }

  /** The statement for values that need no escape. */
  lemma PlainStatement(user: string, host: string, password: string)
    requires NeedsNoEscape(user) && NeedsNoEscape(host) && NeedsNoEscape(password)
    ensures Statement(user, host, password)
         == "ALTER USER " + (("'" + user + "'") + "@" + ("'" + host + "'")) + " IDENTIFIED BY " + ("'" + password + "'")
  {
    NothingIsEscaped(user);
    NothingIsEscaped(host);
    NothingIsEscaped(password);
    hide Escape;
  }
}
