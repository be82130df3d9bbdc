/** Standings against a maximum age, and the loop that enforces it. */
module Compliance {
  import opened Text
  import opened AuditLog
  import opened HistoryCache

  datatype Verdict = Ok | Overdue | NeverRotated | NoPolicy | Unknown

  /** A secret as the policy sees it; maxAge <= 0 means no policy. */
  datatype Policy = Policy(name: string, maxAge: int)

  datatype Standing = Standing(policy: Policy, last: Option<int>, age: int, overdueBy: int, verdict: Verdict)

  predicate NeedsAttention(v: Verdict)
  {
    v == Overdue || v == NeverRotated || v == Unknown
  }

  predicate DueForRotation(st: Standing)
  {
    st.verdict == Overdue || st.verdict == NeverRotated
  }

  /** How long the credential has been in service; a time in the future counts as now. */
  function AgeAt(last: int, now: int): int
  {
    if now - last < 0 then 0 else now - last
  }

  function Evaluate(p: Policy, last: Option<int>, readable: bool, now: int): (st: Standing)
    ensures st.policy == p
  {
    var age := if last.Some? then AgeAt(last.value, now) else 0;
    if p.maxAge <= 0 then Standing(p, last, age, 0, NoPolicy)
    else if !readable then Standing(p, last, age, 0, Unknown)
    else if last.None? then Standing(p, last, age, 0, NeverRotated)
    else if age > p.maxAge then Standing(p, last, age, age - p.maxAge, Overdue)
    else Standing(p, last, age, 0, Ok)
  }

  /** A standing needs no attention exactly when there is no policy, or the
      history was read and shows a success within the policy; whatever needs
      attention is due, except what could not be read. */
  lemma StandingMeans(p: Policy, last: Option<int>, readable: bool, now: int)
    ensures var st := Evaluate(p, last, readable, now);
            && (!NeedsAttention(st.verdict)
                <==> p.maxAge <= 0 || (readable && last.Some? && now - last.value <= p.maxAge))
            && (DueForRotation(st) <==> NeedsAttention(st.verdict) && readable)
            && (st.overdueBy > 0 <==> st.verdict == Overdue)
  {}

  // ---------------------------------------------------------------- the check

  /** The standing of one secret, given the history's answer; without a history
      every answer counts as unreadable. */
  function StandingOf(p: Policy, available: bool, answer: Answer, now: int): Standing
  {
    if !available || answer.Unreadable? then Evaluate(p, None, false, now)
    else Evaluate(p, if answer.LastAt? then Some(answer.time) else None, true, now)
  }

  /** Every verdict, from the history's answer alone: an answer that could not be
      had is neither good nor due, whatever else is true. */
  lemma VerdictsAre(p: Policy, available: bool, answer: Answer, now: int)
    ensures var st := StandingOf(p, available, answer, now);
            && (p.maxAge <= 0 <==> st.verdict == NoPolicy)
            && (p.maxAge > 0 ==>
                  && (!available || answer.Unreadable? <==> st.verdict == Unknown)
                  && (available && answer.NoSuccess? <==> st.verdict == NeverRotated)
                  && (available && answer.LastAt? && now - answer.time > p.maxAge <==> st.verdict == Overdue)
                  && (available && answer.LastAt? && now - answer.time <= p.maxAge <==> st.verdict == Ok))
            && (st.verdict == Overdue ==> answer.LastAt? && st.overdueBy == now - answer.time - p.maxAge)
            && (st.verdict != Overdue ==> st.overdueBy == 0)
    ensures var st := StandingOf(p, available, answer, now);
            && st.policy == p
            && st.last == (if available && answer.LastAt? then Some(answer.time) else None)
            && st.age >= 0 && (st.last.None? || now <= st.last.value ==> st.age == 0)
            && (st.last.Some? && now >= st.last.value ==> st.last.value + st.age == now)
  {}

  method CheckCompliance(policies: seq<Policy>, available: bool, lastSuccess: string -> Answer, now: int)
      returns (standings: seq<Standing>, reason: bool)
    ensures |standings| == |policies|
    ensures forall i :: 0 <= i < |policies| ==>
              standings[i] == StandingOf(policies[i], available, lastSuccess(policies[i].name), now)
    ensures forall i :: 0 <= i < |policies| && (!available || lastSuccess(policies[i].name) == Unreadable) ==>
              !DueForRotation(standings[i]) && (policies[i].maxAge > 0 ==> standings[i].verdict == Unknown)
    ensures reason <==> !available || exists i :: 0 <= i < |policies| && lastSuccess(policies[i].name) == Unreadable
  {
    standings, reason := [], !available;
    for i := 0 to |policies|
      invariant |standings| == i
      invariant forall k :: 0 <= k < i ==>
                  standings[k] == StandingOf(policies[k], available, lastSuccess(policies[k].name), now)
      invariant reason <==> !available || exists k :: 0 <= k < i && lastSuccess(policies[k].name) == Unreadable
    {
      var last: Option<int>, readable := None, available;
      if available {
        match lastSuccess(policies[i].name) {
          case Unreadable => readable, reason := false, true;
          case NoSuccess =>
          case LastAt(t) => last := Some(t);
        }
      }
      standings := standings + [Evaluate(policies[i], last, readable, now)];
    }
  }

  function DueOf(standings: seq<Standing>): (due: seq<Policy>)
    ensures forall p :: p in due <==>
              exists i :: 0 <= i < |standings| && standings[i].policy == p && DueForRotation(standings[i])
  {
    if standings == [] then []
    else
      var init, last := DueOf(standings[..|standings|-1]), standings[|standings|-1];
      assert forall i :: 0 <= i < |standings| - 1 ==> standings[..|standings|-1][i] == standings[i];
      if DueForRotation(last) then init + [last.policy] else init
  }

  /** The due secrets are those of these standings, in ascending order, and no
      other standing is due. */
  ghost predicate DueAt(standings: seq<Standing>, due: seq<Policy>, at: seq<nat>)
  {
    && |at| == |due|
    && (forall i, j :: 0 <= i < j < |at| ==> at[i] < at[j])
    && (forall i :: 0 <= i < |at| ==>
          at[i] < |standings| && DueForRotation(standings[at[i]]) && standings[at[i]].policy == due[i])
    && (forall k :: 0 <= k < |standings| && DueForRotation(standings[k]) ==> k in at)
  }

  /** They come in the order of the standings, once for each that is due. */
  lemma {:induction false} DueInOrder(standings: seq<Standing>) returns (at: seq<nat>)
    ensures DueAt(standings, DueOf(standings), at)
  {
    at := [];
    if standings != [] {
      hide DueAt;
      var n := |standings| - 1;
      at := DueInOrder(standings[..n]);
      assert standings == standings[..n] + [standings[n]];
      OneMoreStanding(standings[..n], DueOf(standings[..n]), at, standings[n]);
      if DueForRotation(standings[n]) {
        at := at + [n];
      }
    } else {
      NoStandings();
    }
  }

  lemma NoStandings()
    ensures DueAt([], [], []) && DueOf([]) == []
  {}

  lemma OneMoreStanding(standings: seq<Standing>, due: seq<Policy>, at: seq<nat>, last: Standing)
    requires DueAt(standings, due, at)
    ensures if DueForRotation(last) then DueAt(standings + [last], due + [last.policy], at + [|standings|])
            else DueAt(standings + [last], due, at)
  {
    var n := |standings|;
    assert (at + [n])[|at|] == n;
  }

  /** The secrets to rotate now, in order. */
  method DueNow(standings: seq<Standing>) returns (due: seq<Policy>)
    ensures due == DueOf(standings)
  {
    due := [];
    for i := 0 to |standings|
      invariant due == DueOf(standings[..i])
    {
      assert standings[..i+1][..i] == standings[..i];
      if DueForRotation(standings[i]) {
        due := due + [standings[i].policy];
      }
    }
    assert standings[..|standings|] == standings;
  }

  // ---------------------------------------------------------------- the policy loop

  /** What came of one due rotation: it succeeded or failed, which is recorded
      when it ends, or another one of that secret held the lock. */
  datatype Attempt = Succeeded | Failed | Skipped

  datatype Work = Work(attempt: Attempt, takes: nat)

  /** What one evaluation meets: whether the history could be read, how many
      rotations began before the context was cancelled, and what came of each. */
  datatype Weather = Weather(readable: bool, begun: nat, work: nat -> Work)

  function StandingsAt(policies: seq<Policy>, log: seq<Entry>, readable: bool, now: int): (standings: seq<Standing>)
    ensures |standings| == |policies|
    ensures forall i :: 0 <= i < |policies| ==>
              standings[i] == StandingOf(policies[i], true, AnswerAt(log, readable, policies[i].name), now)
  {
    seq(|policies|, i requires 0 <= i < |policies| =>
      StandingOf(policies[i], true, AnswerAt(log, readable, policies[i].name), now))
  }

  function AnswerAt(log: seq<Entry>, readable: bool, name: string): Answer
  {
    if readable then AnswerIn(Latest(log), name) else Unreadable
  }

  /** What one rotation that ended then leaves in the log. */
  function Recorded(attempt: Attempt, name: string, at: int): seq<Entry>
  {
    match attempt
    case Succeeded => [Entry(name, at, true)]
    case Failed => [Entry(name, at, false)]
    case Skipped => []
  }

  /** Rotates one after the other. */
  function RotateEach(due: seq<Policy>, log: seq<Entry>, now: int, work: nat -> Work): (seq<Entry>, int)
  {
    if due == [] then (log, now)
    else
      var n := |due| - 1;
      var (log', t) := RotateEach(due[..n], log, now, work);
      var end := t + work(n).takes;
      (log' + Recorded(work(n).attempt, due[n].name, end), end)
  }

  /** The secrets an evaluation begins to rotate. */
  function Begun(policies: seq<Policy>, log: seq<Entry>, now: int, weather: Weather): seq<Policy>
  {
    var due := DueOf(StandingsAt(policies, log, weather.readable, now));
    if weather.begun < |due| then due[..weather.begun] else due
  }

  /** One evaluation: the log after it, and when it ended. */
  function Pass(policies: seq<Policy>, log: seq<Entry>, now: int, weather: Weather): (seq<Entry>, int)
  {
    RotateEach(Begun(policies, log, now, weather), log, now, weather.work)
  }

  method EvaluatePolicies(policies: seq<Policy>, log: seq<Entry>, now: int, weather: Weather)
      returns (after: seq<Entry>, end: int)
    ensures (after, end) == Pass(policies, log, now, weather)
  {
    hide Latest, DueOf;
    var standings, _ := CheckCompliance(policies, true, name => AnswerAt(log, weather.readable, name), now);
    assert standings == StandingsAt(policies, log, weather.readable, now);
    var due := DueNow(standings);
    hide StandingsAt, StandingOf;
    after, end := log, now;
    for i := 0 to |due|
      invariant i <= weather.begun
      invariant (after, end) == RotateEach(due[..i], log, now, weather.work)
    {
      if i == weather.begun {
        return;
      }
      assert due[..i+1][..i] == due[..i];
      end := end + weather.work(i).takes;
      after := after + Recorded(weather.work(i).attempt, due[i].name, end);
    }
    assert due[..|due|] == due;
  }

  // ---------------------------------------------------------------- what an evaluation records

  /** When the k-th rotation ended. */
  function EndedAt(now: int, work: nat -> Work, k: nat): int
  {
    (if k == 0 then now else EndedAt(now, work, k - 1)) + work(k).takes
  }

  /** The entry that the k-th rotation leaves: a failure is recorded as one, at
      the time it ended. */
  function EntryOfRotation(due: seq<Policy>, now: int, work: nat -> Work, k: nat): Entry
    requires k < |due|
  {
    Entry(due[k].name, EndedAt(now, work, k), work(k).attempt == Succeeded)
  }

  lemma {:induction false} EndsInTurn(due: seq<Policy>, log: seq<Entry>, now: int, work: nat -> Work)
    ensures RotateEach(due, log, now, work).1 == if due == [] then now else EndedAt(now, work, |due| - 1)
  {
    if due != [] { EndsInTurn(due[..|due|-1], log, now, work); }
  }

  /** What a row of rotations adds to the log: the entry of each one that was
      not skipped, and nothing else. */
  lemma {:induction false} RecordsEach(due: seq<Policy>, log: seq<Entry>, now: int, work: nat -> Work)
      returns (more: seq<Entry>)
    ensures RotateEach(due, log, now, work).0 == log + more && |more| <= |due|
    ensures forall e :: e in more <==>
              exists k :: 0 <= k < |due| && work(k).attempt != Skipped && e == EntryOfRotation(due, now, work, k)
  {
    hide EndedAt;
    more := [];
    if due != [] {
      var n := |due| - 1;
      var before := RecordsEach(due[..n], log, now, work);
      EndsInTurn(due[..n], log, now, work);
      OneMoreEnd(now, work, n);
      var added := Recorded(work(n).attempt, due[n].name, EndedAt(now, work, n));
      more := before + added;
      assert RotateEach(due, log, now, work).0 == log + before + added;
      hide RotateEach;
      assert log + before + added == log + more;
      forall e ensures e in more <==>
        exists k :: 0 <= k < |due| && work(k).attempt != Skipped && e == EntryOfRotation(due, now, work, k)
      {
        OneMoreEntry(due, now, work, before, e);
      }
    }
  }

  lemma OneMoreEnd(now: int, work: nat -> Work, n: nat)
    ensures EndedAt(now, work, n) == (if n == 0 then now else EndedAt(now, work, n - 1)) + work(n).takes
  {}

  lemma OneMoreEntry(due: seq<Policy>, now: int, work: nat -> Work, before: seq<Entry>, e: Entry)
    requires due != []
    requires var init := due[..|due|-1];
             e in before <==>
               exists k :: 0 <= k < |init| && work(k).attempt != Skipped && e == EntryOfRotation(init, now, work, k)
    ensures var n := |due| - 1;
            e in before + Recorded(work(n).attempt, due[n].name, EndedAt(now, work, n)) <==>
              exists k :: 0 <= k < |due| && work(k).attempt != Skipped && e == EntryOfRotation(due, now, work, k)
  {
    hide EndedAt;
    var n := |due| - 1;
    var init := due[..n];
    assert forall k :: 0 <= k < n ==> EntryOfRotation(init, now, work, k) == EntryOfRotation(due, now, work, k);
    if e in before {
      var k :| 0 <= k < n && work(k).attempt != Skipped && e == EntryOfRotation(init, now, work, k);
      assert e == EntryOfRotation(due, now, work, k);
    }
    if work(n).attempt != Skipped && e == EntryOfRotation(due, now, work, n) {
      assert e in Recorded(work(n).attempt, due[n].name, EndedAt(now, work, n));
    }
  }

  /** What an evaluation adds to the log: of the secrets that are due only those
      whose turn comes before the context is cancelled are rotated, and each
      that was not skipped leaves its entry. */
  lemma PassRecords(policies: seq<Policy>, log: seq<Entry>, now: int, weather: Weather) returns (more: seq<Entry>)
    ensures Pass(policies, log, now, weather).0 == log + more && |more| <= weather.begun
    ensures var due := DueOf(StandingsAt(policies, log, weather.readable, now));
            forall e :: e in more <==>
              exists k :: 0 <= k < |due| && k < weather.begun && weather.work(k).attempt != Skipped
                          && e == EntryOfRotation(due, now, weather.work, k)
  {
    hide EndedAt, StandingsAt, DueOf, RotateEach;
    var due := DueOf(StandingsAt(policies, log, weather.readable, now));
    var begun := Begun(policies, log, now, weather);
    more := RecordsEach(begun, log, now, weather.work);
    assert forall k :: 0 <= k < |begun| ==>
      EntryOfRotation(begun, now, weather.work, k) == EntryOfRotation(due, now, weather.work, k);
  }

  /** An unreadable history rotates nothing. */
  lemma UnreadableHistoryRotatesNothing(policies: seq<Policy>, log: seq<Entry>, now: int, weather: Weather)
    requires !weather.readable
    ensures Pass(policies, log, now, weather) == (log, now)
  {
    NoneDue(StandingsAt(policies, log, false, now));
  }

  /** The policy is due at that time. */
  predicate DueThen(p: Policy, log: seq<Entry>, t: int)
  {
    DueForRotation(StandingOf(p, true, AnswerAt(log, true, p.name), t))
  }

  /** A secret that was due and of whose own rotations none succeeded, because
      they failed, were skipped or never began, stays due. */
  lemma UnservedStaysDue(policies: seq<Policy>, log: seq<Entry>, now: int, weather: Weather, p: Policy, t: int)
    requires DueThen(p, log, now) && now <= t
    requires !OwnSuccess(Begun(policies, log, now, weather), weather.work, p.name)
    ensures DueThen(p, Pass(policies, log, now, weather).0, t)
  {
    hide Begun, RotateEach;
    var begun := Begun(policies, log, now, weather);
    var more := RecordsEach(begun, log, now, weather.work);
    forall e | e in more && e.name == p.name ensures !e.success {
      var k :| 0 <= k < |begun| && weather.work(k).attempt != Skipped
        && e == EntryOfRotation(begun, now, weather.work, k);
    }
    NoNewSuccess(log, more, p.name);
    hide Latest;
  }

  lemma {:induction false} NoNewSuccess(log: seq<Entry>, more: seq<Entry>, name: string)
    requires forall e :: e in more && e.name == name ==> !e.success
    ensures name in Latest(log + more) <==> name in Latest(log)
    ensures name in Latest(log) ==> Latest(log + more)[name] == Latest(log)[name]
  {
    if more == [] {
      assert log + more == log;
    } else {
      var init, last := more[..|more|-1], more[|more|-1];
      assert last in more && forall e :: e in init ==> e in more;
      NoNewSuccess(log, init, name);
      assert (log + more)[..|log + more|-1] == log + init;
    }
  }

  // ---------------------------------------------------------------- the bound

  lemma LatestSnoc(log: seq<Entry>, e: Entry, name: string)
    ensures name in Latest(log) ==> name in Latest(log + [e]) && Latest(log + [e])[name] >= Latest(log)[name]
    ensures e.success && e.name == name ==> name in Latest(log + [e]) && Latest(log + [e])[name] >= e.at
  {
    assert (log + [e])[..|log|] == log;
  }

  /** Recording more never makes a secret look older. */
  lemma {:induction false} LatestGrows(log: seq<Entry>, more: seq<Entry>, name: string)
    ensures name in Latest(log) ==> name in Latest(log + more) && Latest(log + more)[name] >= Latest(log)[name]
  {
    if more == [] {
      assert log + more == log;
    } else {
      var init := more[..|more|-1];
      LatestGrows(log, init, name);
      LatestSnoc(log + init, more[|more|-1], name);
      assert log + more == log + init + [more[|more|-1]];
    }
  }

  /** The log shows the secret a success at or after this time. */
  ghost predicate FreshSince(log: seq<Entry>, name: string, time: int)
  {
    name in Latest(log) && Latest(log)[name] >= time
  }

  lemma StaysFresh(log: seq<Entry>, more: seq<Entry>, name: string, time: int)
    ensures FreshSince(log, name, time) ==> FreshSince(log + more, name, time)
  {
    LatestGrows(log, more, name);
  }

  /** What a row of rotations does for one secret: it stays as fresh as it was,
      and is fresh as of the start if one of them was its own and succeeded. */
  lemma {:induction false} RotatedEach(due: seq<Policy>, log: seq<Entry>, now: int, work: nat -> Work, name: string,
                                       time: int)
    ensures var (log', end) := RotateEach(due, log, now, work);
            && end >= now
            && (FreshSince(log, name, time) ==> FreshSince(log', name, time))
            && (OwnSuccess(due, work, name) ==> FreshSince(log', name, now))
  {
    if due != [] {
      var n := |due| - 1;
      RotatedEach(due[..n], log, now, work, name, time);
      var (before, t) := RotateEach(due[..n], log, now, work);
      OwnSuccessSnoc(due, work, name);
      RotatedOne(before, t, work(n), due[n].name, name, now, time);
      hide FreshSince, OwnSuccess, Recorded;
    }
  }

  /** One of the rotations was this secret's and succeeded. */
  ghost predicate OwnSuccess(due: seq<Policy>, work: nat -> Work, name: string)
  {
    exists k :: 0 <= k < |due| && due[k].name == name && work(k).attempt == Succeeded
  }

  lemma OwnSuccessSnoc(due: seq<Policy>, work: nat -> Work, name: string)
    requires due != []
    ensures var n := |due| - 1;
            OwnSuccess(due, work, name)
            <==> OwnSuccess(due[..n], work, name) || (due[n].name == name && work(n).attempt == Succeeded)
  {
    var n := |due| - 1;
    assert forall k :: 0 <= k < n ==> due[..n][k] == due[k];
  }

  lemma RotatedOne(log: seq<Entry>, t: int, work: Work, rotated: string, name: string, now: int, time: int)
    requires now <= t
    ensures var log' := log + Recorded(work.attempt, rotated, t + work.takes);
            && (FreshSince(log, name, time) ==> FreshSince(log', name, time))
            && (FreshSince(log, name, now) ==> FreshSince(log', name, now))
            && (rotated == name && work.attempt == Succeeded ==> FreshSince(log', name, now))
  {
    hide FreshSince;
    var more := Recorded(work.attempt, rotated, t + work.takes);
    StaysFresh(log, more, name, time);
    StaysFresh(log, more, name, now);
    SuccessIsFresh(log, name, t + work.takes, now);
  }

  lemma SuccessIsFresh(log: seq<Entry>, name: string, at: int, time: int)
    requires time <= at
    ensures FreshSince(log + [Entry(name, at, true)], name, time)
  {
    LatestSnoc(log, Entry(name, at, true), name);
  }

  /** What the bound asks of an evaluation, for one secret only: the history
      could be read, and each of its own due rotations began and succeeded. */
  ghost predicate ServedIn(policies: seq<Policy>, log: seq<Entry>, now: int, weather: Weather, p: Policy)
  {
    var due := DueOf(StandingsAt(policies, log, weather.readable, now));
    && weather.readable
    && forall k :: 0 <= k < |due| && due[k].name == p.name ==> k < weather.begun && weather.work(k).attempt == Succeeded
  }

  /** After an evaluation that serves it, a secret with a policy has a success
      on record that was within its policy when the evaluation began. */
  lemma PassBringsUpToDate(policies: seq<Policy>, log: seq<Entry>, now: int, weather: Weather, p: Policy)
    requires p in policies && p.maxAge > 0 && ServedIn(policies, log, now, weather, p)
    ensures var (log', end) := Pass(policies, log, now, weather);
            end >= now && FreshSince(log', p.name, now - p.maxAge)
  {
    hide Latest, RotateEach, DueOf;
    var standings := StandingsAt(policies, log, true, now);
    var due := DueOf(standings);
    var begun := Begun(policies, log, now, weather);
    RotatedEach(begun, log, now, weather.work, p.name, now - p.maxAge);
    var i :| 0 <= i < |policies| && policies[i] == p;
    assert standings[i].policy == p;
    if DueForRotation(standings[i]) {
      assert p in due;
      var k :| 0 <= k < |due| && due[k] == p;
      assert begun[k] == p && OwnSuccess(begun, weather.work, p.name);
    } else {
      assert FreshSince(log, p.name, now - p.maxAge);
    }
  }

  /** One round of the loop: an evaluation, and whatever else is recorded
      before the next one. */
  datatype Round = Round(start: int, weather: Weather, others: seq<Entry>)

  /** The log after a number of rounds. */
  function LogAfter(policies: seq<Policy>, log0: seq<Entry>, rounds: seq<Round>): seq<Entry>
  {
    if rounds == [] then log0
    else
      var init, last := LogAfter(policies, log0, rounds[..|rounds|-1]), rounds[|rounds|-1];
      Pass(policies, init, last.start, last.weather).0 + last.others
  }

  /** When round k's evaluation ended. */
  function EndOf(policies: seq<Policy>, log0: seq<Entry>, rounds: seq<Round>, k: nat): int
    requires k < |rounds|
  {
    Pass(policies, LogAfter(policies, log0, rounds[..k]), rounds[k].start, rounds[k].weather).1
  }

  /** The age bound for one secret, whatever becomes of the others.  Evaluations
      start at most `interval` apart and last at most `busy`, and each one serves
      this secret.  From the end of the first evaluation to the end of the next,
      and so on, the log at any time t (what round k's evaluation left, and
      whatever more has been recorded) shows it a success at most
      maxAge + interval + busy old. */
  lemma AgeIsBounded(policies: seq<Policy>, log0: seq<Entry>, rounds: seq<Round>, interval: nat, busy: nat,
                     p: Policy, k: nat, t: int, more: seq<Entry>)
    requires p in policies && p.maxAge > 0
    requires k < |rounds|
    requires forall i :: 0 <= i < |rounds| - 1 ==> rounds[i+1].start - rounds[i].start <= interval
    requires forall i :: 0 <= i < |rounds| ==> EndOf(policies, log0, rounds, i) - rounds[i].start <= busy
    requires forall i :: 0 <= i < |rounds| ==>
               ServedIn(policies, LogAfter(policies, log0, rounds[..i]), rounds[i].start, rounds[i].weather, p)
    requires EndOf(policies, log0, rounds, k) <= t
    requires if k + 1 < |rounds| then t <= EndOf(policies, log0, rounds, k + 1) else t <= rounds[k].start + interval
    ensures var before := LogAfter(policies, log0, rounds[..k]);
            var seen := Pass(policies, before, rounds[k].start, rounds[k].weather).0 + more;
            p.name in Latest(seen) && AgeAt(Latest(seen)[p.name], t) <= p.maxAge + interval + busy
  {
    hide Latest, Pass, ServedIn;
    var before, round := LogAfter(policies, log0, rounds[..k]), rounds[k];
    PassBringsUpToDate(policies, before, round.start, round.weather, p);
    StaysFresh(Pass(policies, before, round.start, round.weather).0, more, p.name, round.start - p.maxAge);
  }

  lemma {:induction false} InstantRotations(due: seq<Policy>, log: seq<Entry>, now: int, work: nat -> Work)
    requires forall k: nat :: work(k).takes == 0
    ensures RotateEach(due, log, now, work).1 == now
  {
    if due != [] { InstantRotations(due[..|due|-1], log, now, work); }
  }

  /** When all rotations succeed and take no time, nothing is due right after
      an evaluation. */
  lemma NothingDueAfterInstantPass(policies: seq<Policy>, log: seq<Entry>, now: int, weather: Weather)
    requires forall k: nat :: weather.work(k) == Work(Succeeded, 0)
    requires weather.readable && weather.begun >= |policies|
    ensures var (log', end) := Pass(policies, log, now, weather);
            end == now && DueOf(StandingsAt(policies, log', true, now)) == []
  {
    hide Latest, RotateEach;
    var (log', end) := Pass(policies, log, now, weather);
    DueAtMost(StandingsAt(policies, log, true, now));
    InstantRotations(Begun(policies, log, now, weather), log, now, weather.work);
    forall i | 0 <= i < |policies| ensures !DueForRotation(StandingsAt(policies, log', true, now)[i]) {
      if policies[i].maxAge > 0 {
        PassBringsUpToDate(policies, log, now, weather, policies[i]);
      }
    }
    NoneDue(StandingsAt(policies, log', true, now));
  }

  lemma {:induction false} DueAtMost(standings: seq<Standing>)
    ensures |DueOf(standings)| <= |standings|
  {
    if standings != [] { DueAtMost(standings[..|standings|-1]); }
  }

  lemma {:induction false} NoneDue(standings: seq<Standing>)
    requires forall i :: 0 <= i < |standings| ==> !DueForRotation(standings[i])
    ensures DueOf(standings) == []
  {
    if standings != [] { NoneDue(standings[..|standings|-1]); }
  }
}
