/** Rotation policies as text: parsing and printing a maximum age.

    Durations are int64 nanoseconds, and the arithmetic wraps like int64.
    The library's own duration syntax comes in as a parameter. */
module MaxAges {
  import opened Text

  const SECOND := 1_000_000_000
  const DAY := 24 * 3600 * SECOND
  const WEEK := 7 * DAY
  const TWO63 := 0x8000_0000_0000_0000

  /** The int64 value of an integer. */
  function Wrap(x: int): (r: int)
    ensures -TWO63 <= r < TWO63
    ensures -TWO63 <= x < TWO63 ==> r == x
  {
    (x + TWO63) % (2 * TWO63) - TWO63
  }

  lemma WrapUnique(x: int, r: int, k: int)
    requires -TWO63 <= r < TWO63 && x == r + k * (2 * TWO63)
    ensures Wrap(x) == r
  {
    var m := 2 * TWO63;
    var q := (x + TWO63) / m;
    assert x + TWO63 == q * m + (x + TWO63) % m;
  }

  lemma WrapAdd(a: int, b: int)
    ensures Wrap(Wrap(a) + Wrap(b)) == Wrap(a + b)
  {
    var m := 2 * TWO63;
    var ka, kb := (a + TWO63) / m, (b + TWO63) / m;
    var x := Wrap(a) + Wrap(b);
    var kx := (x + TWO63) / m;
    assert a == Wrap(a) + ka * m && b == Wrap(b) + kb * m && x == Wrap(x) + kx * m;
    WrapUnique(a + b, Wrap(x), ka + kb + kx);
  }

  /** How many digits s starts with. */
  function DigitRun(s: string): (n: nat)
    ensures n <= |s|
    ensures forall i :: 0 <= i < n ==> Digit(s[i])
    ensures n < |s| ==> !Digit(s[n])
  {
    if s == [] || !Digit(s[0]) then 0 else 1 + DigitRun(s[1..])
  }

  /** strconv.Atoi on a run of digits. */
  function Atoi(digits: string): Option<int>
  {
    if Value(digits) < TWO63 then Some(Value(digits)) else None
  }

  function UnitOf(c: char): Option<int>
  {
    if c == 'd' then Some(DAY) else if c == 'w' then Some(WEEK) else None
  }

  /** Consumes leading number-unit groups; None is an unreadable number. */
  function Consume(total: int, s: string): Option<(int, string)>
    decreases |s|
  {
    var n := DigitRun(s);
    if n == 0 || n >= |s| || UnitOf(s[n]).None? then Some((total, s))
    else if Atoi(s[..n]).None? then None
    else
      var total' := Wrap(total + Wrap(Atoi(s[..n]).value * UnitOf(s[n]).value));
      if s[n+1..] == "" then Some((total', "")) else Consume(total', s[n+1..])
  }

  /** A maximum age in nanoseconds, 0 for no policy; None is a rejected text. */
  function Parse(raw: string, parseDuration: string -> Option<int>): Option<int>
  {
    var trimmed := TrimSpace(raw);
    if trimmed == "" then Some(0)
    else
      match Consume(0, trimmed)
      case None => None
      case Some((total, rest)) =>
        if rest == "" then Positive(total)
        else if parseDuration(rest).None? then None
        else Positive(Wrap(total + parseDuration(rest).value))
  }

  function Positive(total: int): Option<int>
  {
    if total <= 0 then None else Some(total)
  }

  method ConsumeExtendedUnits(text: string) returns (r: Option<(int, string)>)
    ensures r == Consume(0, text)
  {
    hide Wrap, Value, Atoi, UnitOf, DigitRun;
    var total, s := 0, text;
    while true
      invariant Consume(total, s) == Consume(0, text)
      decreases |s|
    {
      var digits := LeadingDigits(s);
      if digits == 0 || digits >= |s| {
        return Some((total, s));
      }
      var unit := UnitOf(s[digits]);
      if unit.None? {
        return Some((total, s));
      }
      var n := Atoi(s[..digits]);
      if n.None? {
        return None;
      }
      total := Wrap(total + Wrap(n.value * unit.value));
      s := s[digits+1..];
      if s == "" {
        return Some((total, ""));
      }
    }
  }

  method LeadingDigits(s: string) returns (digits: nat)
    ensures digits == DigitRun(s)
  {
    digits := 0;
    while digits < |s| && '0' <= s[digits] <= '9'
      invariant digits <= |s| && forall i :: 0 <= i < digits ==> Digit(s[i])
    {
      digits := digits + 1;
    }
    RunEndsHere(s, digits);
  }

  method ParseMaxAge(raw: string, parseDuration: string -> Option<int>) returns (age: Option<int>)
    ensures age == Parse(raw, parseDuration)
    ensures age == Some(0) <==> TrimSpace(raw) == ""
    ensures age.Some? ==> age.value >= 0
  {
    var trimmed := TrimSpace(raw);
    if trimmed == "" {
      return Some(0);
    }
    var consumed := ConsumeExtendedUnits(trimmed);
    if consumed.None? {
      return None;
    }
    var (total, remainder) := consumed.value;
    if remainder != "" {
      var parsed := parseDuration(remainder);
      if parsed.None? {
        return None;
      }
      total := Wrap(total + parsed.value);
    }
    if total <= 0 {
      return None;
    }
    return Some(total);
  }

  lemma {:induction false} RunEndsHere(s: string, n: nat)
    requires n <= |s| && forall i :: 0 <= i < n ==> Digit(s[i])
    requires n < |s| ==> !Digit(s[n])
    ensures DigitRun(s) == n
  {
    if n > 0 {
      RunEndsHere(s[1..], n - 1);
    }
  }

  // ---------------------------------------------------------------- groups

  datatype Group = Group(digits: string, unit: char)

  ghost predicate ValidGroup(g: Group)
  {
    g.digits != "" && (forall i :: 0 <= i < |g.digits| ==> Digit(g.digits[i])) && UnitOf(g.unit).Some?
  }

  function Written(groups: seq<Group>): string
  {
    if groups == [] then "" else groups[0].digits + [groups[0].unit] + Written(groups[1..])
  }

  function Amount(g: Group): int
  {
    if UnitOf(g.unit).Some? then Value(g.digits) * UnitOf(g.unit).value else 0
  }

  /** The sum of number times unit. */
  function Sum(groups: seq<Group>): int
  {
    if groups == [] then 0 else Amount(groups[0]) + Sum(groups[1..])
  }

  ghost predicate AllValid(groups: seq<Group>)
  {
    forall i :: 0 <= i < |groups| ==> ValidGroup(groups[i])
  }

  ghost predicate AllFit(groups: seq<Group>)
  {
    forall i :: 0 <= i < |groups| ==> Value(groups[i].digits) < TWO63
  }

  /** One group at the head of a text. */
  lemma ConsumeOne(total: int, g: Group, rest: string)
    requires ValidGroup(g)
    ensures var s := g.digits + [g.unit] + rest;
            Consume(total, s)
            == if Value(g.digits) >= TWO63 then None
               else if rest == "" then Some((Wrap(total + Wrap(Amount(g))), ""))
               else Consume(Wrap(total + Wrap(Amount(g))), rest)
  {
    var s := g.digits + [g.unit] + rest;
    var n := |g.digits|;
    assert s[..n] == g.digits && s[n] == g.unit && s[n+1..] == rest;
    assert forall i :: 0 <= i < n ==> s[i] == g.digits[i];
    NotADigit(g.unit);
    RunEndsHere(s, n);
    hide Wrap, Value, DigitRun, Digit, UnitOf;
  }

  lemma NotADigit(c: char)
    requires UnitOf(c).Some?
    ensures !Digit(c)
  {
  }

  /** The loop stops here. */
  predicate StartsNoGroup(s: string)
  {
    var n := DigitRun(s);
    n == 0 || n >= |s| || UnitOf(s[n]).None?
  }

  /** What the loop makes of groups and a rest: the wrapped sum and the rest, or
      an error exactly when some number does not fit. */
  lemma {:induction false} ConsumeGroups(total: int, groups: seq<Group>, rest: string)
    requires AllValid(groups) && StartsNoGroup(rest)
    ensures Consume(Wrap(total), Written(groups) + rest)
         == if AllFit(groups) then Some((Wrap(total + Sum(groups)), rest)) else None
    decreases |groups|
  {
    hide Wrap, Value, Amount, ValidGroup, Consume, StartsNoGroup, Written;
    if groups == [] {
      NoGroups(Wrap(total), rest);
    } else {
      var g, tail := groups[0], groups[1..];
      assert ValidGroup(g) && groups == [g] + tail;
      assert forall i :: 0 <= i < |tail| ==> tail[i] == groups[i+1];
      assert forall i :: 0 < i < |groups| ==> groups[i] == tail[i-1];
      ConsumeFirst(total, g, tail, rest);
      ConsumeGroups(total + Amount(g), tail, rest);
      if Written(tail) + rest == "" {
        NothingWritten(tail);
      }
    }
  }

  lemma NoGroups(total: int, rest: string)
    requires StartsNoGroup(rest)
    ensures Consume(total, Written([]) + rest) == Some((total, rest))
  {
    assert Written([]) + rest == rest;
  }

  lemma ConsumeFirst(total: int, g: Group, tail: seq<Group>, rest: string)
    requires ValidGroup(g)
    ensures var text := Written(tail) + rest;
            Consume(Wrap(total), Written([g] + tail) + rest)
            == if Value(g.digits) >= TWO63 then None
               else if text == "" then Some((Wrap(total + Amount(g)), ""))
               else Consume(Wrap(total + Amount(g)), text)
  {
    hide Wrap, Value, Amount, ValidGroup, Consume;
    var text := Written(tail) + rest;
    assert ([g] + tail)[1..] == tail;
    assert Written([g] + tail) + rest == g.digits + [g.unit] + text;
    ConsumeOne(Wrap(total), g, text);
    WrapAdd(total, Amount(g));
  }

  lemma NothingWritten(groups: seq<Group>)
    requires AllValid(groups) && Written(groups) == ""
    ensures groups == []
  {
    if groups != [] { WrittenEnds(groups); }
  }

  /** Every text is groups and a rest that starts no group. */
  lemma {:induction false} Decompose(s: string) returns (groups: seq<Group>, rest: string)
    ensures s == Written(groups) + rest && AllValid(groups) && StartsNoGroup(rest)
    decreases |s|
  {
    if StartsNoGroup(s) {
      groups, rest := [], s;
    } else {
      var n := DigitRun(s);
      var g := Group(s[..n], s[n]);
      var tail;
      tail, rest := Decompose(s[n+1..]);
      groups := [g] + tail;
      assert ValidGroup(g) && groups[1..] == tail;
      hide DigitRun, UnitOf, ValidGroup, StartsNoGroup;
      assert s == s[..n] + [s[n]] + s[n+1..];
    }
  }

  lemma WrittenHasNoSpace(groups: seq<Group>)
    requires groups != [] && AllValid(groups)
    ensures TrimSpace(Written(groups)) == Written(groups) && Written(groups) != ""
  {
    WrittenEnds(groups);
    hide Written, ValidGroup;
    EndsKeepText(Written(groups));
  }

  lemma EndsKeepText(s: string)
    requires s != "" && Digit(s[0]) && UnitOf(s[|s|-1]).Some?
    ensures TrimSpace(s) == s
  {
    assert SpaceAtFront(s) == 0;
    assert SpaceAtBack(s) == 0;
  }

  lemma {:induction false} WrittenEnds(groups: seq<Group>)
    requires groups != [] && AllValid(groups)
    ensures var s := Written(groups); s != "" && Digit(s[0]) && UnitOf(s[|s|-1]).Some?
    decreases |groups|
  {
    hide UnitOf;
    assert ValidGroup(groups[0]);
    if |groups| > 1 {
      var rest := groups[1..];
      assert forall i :: 0 <= i < |rest| ==> rest[i] == groups[i+1];
      WrittenEnds(rest);
    }
  }

  /** The duration that the library reads in the rest; no rest counts as zero. */
  function RestOf(rest: string, parseDuration: string -> Option<int>): Option<int>
  {
    if rest == "" then Some(0) else parseDuration(rest)
  }

  /** What any text is read as: the wrapped sum of its groups and its rest if
      that is positive, and an error when some number does not fit or the
      library rejects the rest. */
  lemma ParsesAs(raw: string, groups: seq<Group>, rest: string, parseDuration: string -> Option<int>)
    requires TrimSpace(raw) == Written(groups) + rest && TrimSpace(raw) != "" && AllValid(groups) && StartsNoGroup(rest)
    ensures Parse(raw, parseDuration)
         == if AllFit(groups) && RestOf(rest, parseDuration).Some?
            then Positive(Wrap(Sum(groups) + RestOf(rest, parseDuration).value)) else None
  {
    hide Written, Sum, Value, Consume, TrimSpace, AllFit, Wrap, Positive, AllValid, StartsNoGroup;
    ConsumeGroups(0, groups, rest);
    assert Wrap(0) == 0;
    if RestOf(rest, parseDuration).Some? {
      WrapLeft(Sum(groups), RestOf(rest, parseDuration).value);
    }
  }

  lemma WrapLeft(a: int, b: int)
    ensures Wrap(Wrap(a) + b) == Wrap(a + b)
  {
    var m := 2 * TWO63;
    var x := Wrap(a) + b;
    var ka, kx := (a + TWO63) / m, (x + TWO63) / m;
    assert a == Wrap(a) + ka * m && x == Wrap(x) + kx * m;
    WrapUnique(a + b, Wrap(x), ka + kx);
  }

  /** No policy is what white space alone says, and nothing else. */
  lemma NoPolicyExactlyWhenEmpty(raw: string, parseDuration: string -> Option<int>)
    ensures Parse(raw, parseDuration) == Some(0) <==> TrimSpace(raw) == ""
  {
    hide TrimSpace, Consume, Wrap;
  }

  /** Any text that the library does not reject is read as the exact sum of its
      groups and its rest if and only if that sum is positive and fits. */
  lemma ParsesExactlyWhenItFits(raw: string, groups: seq<Group>, rest: string, parseDuration: string -> Option<int>)
    requires TrimSpace(raw) == Written(groups) + rest && TrimSpace(raw) != "" && AllValid(groups) && StartsNoGroup(rest)
    requires RestOf(rest, parseDuration).Some? && -TWO63 <= RestOf(rest, parseDuration).value < TWO63
    ensures var sum := Sum(groups) + RestOf(rest, parseDuration).value;
            Parse(raw, parseDuration) == Some(sum) <==> 0 < sum < TWO63
  {
    hide Written, Sum, Parse, TrimSpace, AllFit, Wrap, AllValid, StartsNoGroup, RestOf;
    ParsesAs(raw, groups, rest, parseDuration);
    FittingSum(groups);
  }

  /** In particular, texts of number-unit groups alone. */
  lemma GroupsParseExactlyWhenTheyFit(groups: seq<Group>, parseDuration: string -> Option<int>)
    requires groups != [] && AllValid(groups)
    ensures Parse(Written(groups), parseDuration) == Some(Sum(groups)) <==> 0 < Sum(groups) < TWO63
  {
    WrittenHasNoSpace(groups);
    hide Written, Sum, Parse, TrimSpace, AllValid, Wrap;
    assert Written(groups) + "" == Written(groups);
    ParsesExactlyWhenItFits(Written(groups), groups, "", parseDuration);
  }

  lemma FittingSum(groups: seq<Group>)
    requires AllValid(groups)
    ensures Sum(groups) < 2 * TWO63 ==> AllFit(groups)
  {
    hide Sum, Value;
    SumBoundsNumbers(groups);
  }

  lemma {:induction false} SumBoundsNumbers(groups: seq<Group>)
    requires AllValid(groups)
    ensures Sum(groups) >= 0
    ensures forall i :: 0 <= i < |groups| ==> 2 * Value(groups[i].digits) <= Sum(groups)
  {
    hide Amount, Value;
    if groups != [] {
      var rest := groups[1..];
      assert ValidGroup(groups[0]);
      AmountBoundsNumber(groups[0]);
      assert forall i :: 0 <= i < |rest| ==> rest[i] == groups[i+1];
      SumBoundsNumbers(rest);
      forall i | 0 <= i < |groups| ensures 2 * Value(groups[i].digits) <= Sum(groups) {
        if i > 0 { assert groups[i] == rest[i-1]; }
      }
    }
  }

  lemma AmountBoundsNumber(g: Group)
    requires ValidGroup(g)
    ensures 0 <= 2 * Value(g.digits) <= Amount(g)
  {
    ValueNonNegative(g.digits);
    hide Value;
  }

  lemma {:induction false} ValueNonNegative(digits: string)
    requires forall i :: 0 <= i < |digits| ==> Digit(digits[i])
    ensures Value(digits) >= 0
  {
    if digits != [] {
      ValueNonNegative(digits[..|digits|-1]);
    }
  }

  /** A text whose sum does not fit is not rejected: 30501 weeks, some 585
      years, is accepted as three days. */
  lemma OverlongPolicyIsAccepted(parseDuration: string -> Option<int>)
    ensures Parse("30501w", parseDuration).Some? && 3 * DAY < Parse("30501w", parseDuration).value < 4 * DAY
  {
    var g := Group("30501", 'w');
    Number30501();
    OneGroup(g);
    assert ValidGroup(g) && Amount(g) == 30501 * WEEK && g.digits + [g.unit] == "30501w";
    WrittenHasNoSpace([g]);
    hide Value, Amount, Sum, Written, Parse, ValidGroup, AllValid, TrimSpace;
    assert Written([g]) + "" == Written([g]);
    ParsesAs("30501w", [g], "", parseDuration);
    WrapUnique(30501 * WEEK, 30501 * WEEK - 2 * TWO63, 1);
    hide Wrap;
  }

  lemma OneGroup(g: Group)
    ensures Written([g]) == g.digits + [g.unit] && Sum([g]) == Amount(g)
    ensures AllValid([g]) <==> ValidGroup(g)
    ensures AllFit([g]) <==> Value(g.digits) < TWO63
  {
    hide Value, Amount, ValidGroup;
    assert [g][1..] == [] && [g][0] == g;
    assert Written([]) == "" && Sum([]) == 0;
  }

  lemma OneMoreDigit(digits: string, c: char)
    ensures Value(digits + [c]) == 10 * Value(digits) + DigitValue(c)
  {
    assert (digits + [c])[..|digits|] == digits;
  }

  lemma Number30501()
    ensures Value("30501") == 30501
  {
    OneMoreDigit("", '3');
    OneMoreDigit("3", '0');
    OneMoreDigit("30", '5');
    OneMoreDigit("305", '0');
    OneMoreDigit("3050", '1');
    assert Value("") == 0;
    hide Value;
    assert "" + "3" == "3" && "3" + "0" == "30" && "30" + "5" == "305" && "305" + "0" == "3050"
      && "3050" + "1" == "30501";
  }

  lemma OneDigit(c: char)
    ensures Value([c]) == DigitValue(c)
  {
    OneMoreDigit("", c);
    assert "" + [c] == [c];
  }

  /** A day is 86 400 seconds, a week seven days. */
  lemma DayAndWeekParse(parseDuration: string -> Option<int>)
    ensures Parse("1d", parseDuration) == Some(86_400_000_000_000)
    ensures Parse("1w", parseDuration) == Some(604_800_000_000_000)
  {
    var d, w := Group("1", 'd'), Group("1", 'w');
    OneDigit('1');
    OneGroup(d);
    OneGroup(w);
    assert ValidGroup(d) && ValidGroup(w) && Amount(d) == DAY && Amount(w) == WEEK;
    assert d.digits + [d.unit] == "1d" && w.digits + [w.unit] == "1w";
    hide Value, Amount, Sum, Written, Parse, ValidGroup, AllValid;
    GroupsParseExactlyWhenTheyFit([d], parseDuration);
    GroupsParseExactlyWhenTheyFit([w], parseDuration);
  }

  // ---------------------------------------------------------------- printing

  /** %d of a non-negative number. */
  function Decimal(n: nat): (s: string)
    ensures s != "" && forall i :: 0 <= i < |s| ==> Digit(s[i])
    ensures Value(s) == n
  {
    var last := ['0' + (n % 10) as char];
    if n < 10 then last
    else
      var s := Decimal(n / 10) + last;
      assert s[..|s|-1] == Decimal(n / 10);
      s
  }

  /** The largest whole unit that fits. */
  function Print(age: int, durationText: int -> string): string
  {
    if age <= 0 then "none"
    else if age % WEEK == 0 then Decimal(age / WEEK) + "w"
    else if age % DAY == 0 then Decimal(age / DAY) + "d"
    else durationText(age)
  }

  /** Whole weeks are printed as weeks, other whole days as days, no policy as such. */
  lemma PrintsLargestUnit(age: int, durationText: int -> string)
    requires age > 0 ==> age % DAY == 0
    ensures age <= 0 ==> Print(age, durationText) == "none"
    ensures var text := Print(age, durationText);
            age > 0 ==>
            && text != "" && AllDigits(text[..|text|-1])
            && (age % WEEK == 0 <==> text[|text|-1] == 'w') && (age % WEEK != 0 <==> text[|text|-1] == 'd')
            && Value(text[..|text|-1]) * (if age % WEEK == 0 then WEEK else DAY) == age
  {
    hide Decimal, Value;
    if age > 0 {
      var n := if age % WEEK == 0 then age / WEEK else age / DAY;
      var text := Print(age, durationText);
      assert text[..|text|-1] == Decimal(n);
    }
  }

  lemma CountReadsBack(n: nat, unit: char, parseDuration: string -> Option<int>)
    requires UnitOf(unit).Some? && 0 < n * UnitOf(unit).value < TWO63
    ensures Parse(Decimal(n) + [unit], parseDuration) == Some(n * UnitOf(unit).value)
  {
    var g := Group(Decimal(n), unit);
    OneGroup(g);
    assert ValidGroup(g) && Amount(g) == n * UnitOf(unit).value;
    hide Written, Sum, Amount, Value, ValidGroup, AllValid, Parse, Decimal, UnitOf;
    GroupsParseExactlyWhenTheyFit([g], parseDuration);
  }

  /** What is assumed of the library's duration text for one age: it is not
      empty, holds no space at its ends, does not start with a number of days or
      weeks, and the library reads it back. */
  ghost predicate LibraryReadsBack(age: int, parseDuration: string -> Option<int>, durationText: int -> string)
  {
    var text := durationText(age);
    text != "" && TrimSpace(text) == text && StartsNoGroup(text) && parseDuration(text) == Some(age)
  }

  /** Every policy is read back as it was printed, given that the library reads
      back what it printed, which matters only when the age is not whole days. */
  lemma PrintedAgeReadsBack(age: int, parseDuration: string -> Option<int>, durationText: int -> string)
    requires 0 < age < TWO63 && (age % DAY != 0 ==> LibraryReadsBack(age, parseDuration, durationText))
    ensures Parse(Print(age, durationText), parseDuration) == Some(age)
  {
    if age % DAY == 0 {
      PrintedDaysReadBack(age, parseDuration, durationText);
    } else {
      var text := durationText(age);
      WholeWeeks(age);
      assert Print(age, durationText) == text;
      assert Written([]) + text == text && Sum([]) == 0;
      ParsesExactlyWhenItFits(text, [], text, parseDuration);
    }
  }

  lemma WholeWeeks(age: int)
    ensures age % WEEK == 0 ==> age % DAY == 0
  {
    if age % WEEK == 0 {
      SmallMultiple(age % DAY, 7 * (age / WEEK) - age / DAY);
    }
  }

  lemma SmallMultiple(r: int, x: int)
    requires 0 <= r < DAY && r == DAY * x
    ensures r == 0
  {
    assert x <= 0 && x >= 0;
  }

  /** A policy of whole days is read back as it was printed. */
  lemma PrintedDaysReadBack(age: int, parseDuration: string -> Option<int>, durationText: int -> string)
    requires 0 < age < TWO63 && age % DAY == 0
    ensures Parse(Print(age, durationText), parseDuration) == Some(age)
  {
    hide Parse, Decimal;
    if age % WEEK == 0 {
      CountReadsBack(age / WEEK, 'w', parseDuration);
      assert Print(age, durationText) == Decimal(age / WEEK) + ['w'];
    } else {
      CountReadsBack(age / DAY, 'd', parseDuration);
      assert Print(age, durationText) == Decimal(age / DAY) + ['d'];
    }
  }
}
