/** Secrets that live in the same env file, as in the example configuration:
    what happens when their rotations overlap. */
module SharedFiles {
  import opened Text
  import opened EnvFiles
  import opened Domain
  import opened Rotations
  import opened Saga
  import opened Guarantees
  import opened Scheduling
  import Chain
  import DryRun

  // ---------------------------------------------------------------- what a restore puts back

  /** A file that is restored holds the bytes from before its rotation, and so
      every key's old value, whatever was written to it in between. */
  lemma RestorePutsBackEveryKey(s: Secret, w0: World, l: Local, w: World, f: Fate)
    requires ValidSecret(s) && JournalInv(s, w0, l) && l.phase.Undoing? && l.phase.j < |l.journal.written|
    requires f.ok && l.journal.written[l.phase.j] in w.files
    ensures var path, w' := l.journal.written[l.phase.j], Step(s, State(l, w), f).world;
            path in w0.files && w' == w.(files := w.files[path := w0.files[path]])
  {
    hide JournalInv, ValidKey, Plan, UndoFrom;
    UndoPosition(s, w0, l, l.phase.j);
  }

  /** So another secret in that file stays in step exactly when its value was
      not changed in between. */
  lemma RestoreKeepsOtherExactlyWhen(s: Secret, t: Secret, w0: World, l: Local, w: World, f: Fate)
    requires ValidSecret(s) && JournalInv(s, w0, l) && l.phase.Undoing? && l.phase.j < |l.journal.written|
    requires f.ok && |t.envFiles| > 0 && l.journal.written[l.phase.j] == Primary(t) && InForce(t, w)
    ensures Primary(t) in w0.files
    ensures InForce(t, Step(s, State(l, w), f).world)
            <==> Lookup(w0.files[Primary(t)], t.envKey) == Lookup(w.files[Primary(t)], t.envKey)
  {
    RestorePutsBackEveryKey(s, w0, l, w, f);
    hide Step, Lookup, JournalInv, ValidSecret;
  }

  /** A rotation of another secret that succeeds while this one is about to
      restore the file they share is lost with the restore: the service has the
      new value and the file the old one. */
  lemma RestoreUndoesTheOther(s: Secret, t: Secret, w0: World, before: seq<Fate>, other: seq<Fate>, f: Fate)
    requires ValidSecret(s) && ValidSecret(t) && HasBackingService(t.kind)
    requires var l := Run(s, w0, before).local;
             l.phase.Undoing? && l.phase.j < |l.journal.written| && l.journal.written[l.phase.j] == Primary(t)
    requires var r := Run(t, Run(s, w0, before).world, other);
             r.local.phase == Finished(Success) && Base64Url(r.local.journal.next)
             && (Primary(t) in w0.files ==> Lookup(w0.files[Primary(t)], t.envKey) != Some(r.local.journal.next))
    requires f.ok
    ensures var r := Run(t, Run(s, w0, before).world, other);
            var w := Step(s, State(Run(s, w0, before).local, r.world), f).world;
            && InForce(t, r.world) && !InForce(t, w)
            && w.cells == r.world.cells
  {
    hide Run, Step, Lookup, Edit, ValidKey, JournalInv, InForce, Base64Url, AllLoaded, SameLoadsElsewhere;
    var l, w1 := Run(s, w0, before).local, Run(s, w0, before).world;
    ReachableJournal(s, w0, before);
    Chain.SuccessStaysInStep(t, w1, other);
    SuccessIsComplete(t, w1, other);
    assert Primary(t) in t.envFiles;
    RestorePutsBackEveryKey(s, w0, l, Run(t, w1, other).world, f);
    RestoreKeepsOtherExactlyWhen(s, t, w0, l, Run(t, w1, other).world, f);
  }

  // ---------------------------------------------------------------- one job among two

  /** A rotation's steps from any state. */
  function Steps(s: Secret, r: State, fates: seq<Fate>): State
    requires |s.envFiles| > 0
  {
    if fates == [] then r else Step(s, Steps(s, r, fates[..|fates|-1]), fates[|fates|-1])
  }

  lemma {:induction false} RunIsSteps(s: Secret, w0: World, fates: seq<Fate>)
    requires |s.envFiles| > 0
    ensures Run(s, w0, fates) == Steps(s, State(Start(s), w0), fates)
  {
    hide Step;
    if fates != [] { RunIsSteps(s, w0, fates[..|fates|-1]); }
  }

  /** Turns of one job. */
  function On(i: nat, fates: seq<Fate>): (turns: seq<Turn>)
    ensures |turns| == |fates| && forall k :: 0 <= k < |turns| ==> turns[k] == Turn(i, fates[k])
  {
    seq(|fates|, k requires 0 <= k < |fates| => Turn(i, fates[k]))
  }

  /** What the turns of one job leave: the job further on, or returned, and
      the others as they were. */
  ghost predicate Advanced(d: Daemon, d': Daemon, i: nat, r: State)
    requires |d.jobs| == |d'.jobs| && i < |d.jobs| && d.jobs[i].Running?
  {
    && d'.world == r.world && d'.table == d.table
    && (forall k :: 0 <= k < |d.jobs| && k != i ==> d'.jobs[k] == d.jobs[k])
    && (|| (d'.jobs[i] == Running(d.jobs[i].mutex, r.local) && d'.held == d.held)
        || (d'.jobs[i] == Returned(r.local) && r.local.phase.Finished? && d'.held == d.held - {d.jobs[i].mutex}))
  }

  lemma AfterSnoc(triggers: seq<Secret>, w0: World, turns: seq<Turn>, turn: Turn)
    requires ValidTriggers(triggers) && ValidSchedule(triggers, turns) && turn.job < |triggers|
    ensures |triggers[turn.job].envFiles| > 0 && ValidSchedule(triggers, turns + [turn])
    ensures After(triggers, w0, turns + [turn]) == Move(triggers, After(triggers, w0, turns), turn.job, turn.fate)
  {
    hide Move;
    assert ValidSecret(triggers[turn.job]);
    assert (turns + [turn])[..|turns|] == turns;
  }

  lemma {:induction false} JobAdvances(triggers: seq<Secret>, w0: World, turns: seq<Turn>, i: nat, fates: seq<Fate>)
    requires ValidTriggers(triggers) && ValidSchedule(triggers, turns) && i < |triggers|
    requires After(triggers, w0, turns).jobs[i].Running?
    ensures |triggers[i].envFiles| > 0 && ValidSchedule(triggers, turns + On(i, fates))
    ensures var d := After(triggers, w0, turns);
            Advanced(d, After(triggers, w0, turns + On(i, fates)), i,
                     Steps(triggers[i], State(d.jobs[i].local, d.world), fates))
    decreases |fates|
  {
    hide After, Move, Step, ValidSecret, Advanced;
    assert ValidSecret(triggers[i]);
    HasFiles(triggers[i]);
    var d := After(triggers, w0, turns);
    if fates == [] {
      assert turns + On(i, fates) == turns;
      NotAdvanced(d, i);
    } else {
      var n := |fates| - 1;
      JobAdvances(triggers, w0, turns, i, fates[..n]);
      AfterSnoc(triggers, w0, turns + On(i, fates[..n]), Turn(i, fates[n]));
      assert turns + On(i, fates) == turns + On(i, fates[..n]) + [Turn(i, fates[n])];
      AdvancesOnce(triggers, d, After(triggers, w0, turns + On(i, fates[..n])), i,
                   Steps(triggers[i], State(d.jobs[i].local, d.world), fates[..n]), fates[n]);
    }
  }

  lemma NotAdvanced(d: Daemon, i: nat)
    requires i < |d.jobs| && d.jobs[i].Running?
    ensures Advanced(d, d, i, State(d.jobs[i].local, d.world))
  {}

  lemma AdvancesOnce(triggers: seq<Secret>, d: Daemon, d': Daemon, i: nat, r: State, f: Fate)
    requires |d.jobs| == |d'.jobs| == |triggers| && i < |triggers| && |triggers[i].envFiles| > 0 && d.jobs[i].Running?
    requires Advanced(d, d', i, r)
    ensures Advanced(d, Move(triggers, d', i, f), i, Step(triggers[i], r, f))
  {
    FinishedStep(triggers[i], r, f);
    hide Step;
  }

  lemma FinishedStep(s: Secret, r: State, f: Fate)
    requires |s.envFiles| > 0
    ensures r.local.phase.Finished? ==> Step(s, r, f) == r
  {
    hide ReadStep, GenerateStep, ApplyStep, VerifyStep, WriteStep, RestartStep, UndoStep, RecordStep;
  }

  /** A job that finds no lock takes a new one. */
  lemma JobBegins(triggers: seq<Secret>, w0: World, turns: seq<Turn>, i: nat, f: Fate)
    requires ValidTriggers(triggers) && ValidSchedule(triggers, turns) && i < |triggers|
    requires var d := After(triggers, w0, turns);
             d.jobs[i] == Waiting && triggers[i].name !in d.table && i !in d.held
    ensures ValidSchedule(triggers, turns + On(i, [f, f]))
    ensures var d, d' := After(triggers, w0, turns), After(triggers, w0, turns + On(i, [f, f]));
            && d'.world == d.world && d'.jobs == d.jobs[i := Running(i, Start(triggers[i]))]
            && d'.table == d.table[triggers[i].name := i] && d'.held == d.held + {i}
  {
    hide After, Start, Step;
    AfterSnoc(triggers, w0, turns, Turn(i, f));
    AfterSnoc(triggers, w0, turns + [Turn(i, f)], Turn(i, f));
    assert turns + On(i, [f, f]) == turns + [Turn(i, f)] + [Turn(i, f)];
  }

  // ---------------------------------------------------------------- two triggers

  /** The first trigger begins, the second runs, the first goes on. */
  function Overlapping(first: seq<Fate>, other: seq<Fate>, rest: seq<Fate>): seq<Turn>
  {
    On(0, [Fine(""), Fine("")]) + On(0, first) + On(1, [Fine(""), Fine("")]) + On(1, other) + On(0, rest)
  }

  /** Where the second rotation is, having run when the first was this far. */
  ghost function OtherState(s: Secret, t: Secret, w0: World, first: seq<Fate>, other: seq<Fate>): State
    requires |s.envFiles| > 0 && |t.envFiles| > 0
  {
    Run(t, Run(s, w0, first).world, other)
  }

  /** Where the first rotation is, having gone on after that. */
  ghost function RestState(s: Secret, t: Secret, w0: World, first: seq<Fate>, other: seq<Fate>, rest: seq<Fate>): State
    requires |s.envFiles| > 0 && |t.envFiles| > 0
  {
    Steps(s, State(Run(s, w0, first).local, OtherState(s, t, w0, first, other).world), rest)
  }

  predicate At(job: Job, l: Local)
  {
    (job.Running? || job.Returned?) && job.local == l
  }

  lemma OverlappingRuns(s: Secret, t: Secret, w0: World, first: seq<Fate>, other: seq<Fate>, rest: seq<Fate>)
    requires ValidSecret(s) && ValidSecret(t) && s.name != t.name && !Run(s, w0, first).local.phase.Finished?
    ensures ValidTriggers([s, t]) && ValidSchedule([s, t], Overlapping(first, other, rest))
    ensures var d := After([s, t], w0, Overlapping(first, other, rest));
            && d.world == RestState(s, t, w0, first, other, rest).world
            && At(d.jobs[0], RestState(s, t, w0, first, other, rest).local)
            && At(d.jobs[1], OtherState(s, t, w0, first, other).local)
  {
    hide After, ValidSecret, Run, Steps, Start;
    HasFiles(s);
    HasFiles(t);
    var triggers := [s, t];
    NothingBegun(triggers, w0);
    var a := On(0, [Fine(""), Fine("")]);
    assert [] + a == a;
    JobBegins(triggers, w0, [], 0, Fine(""));
    var b := a + On(0, first);
    JobAdvances(triggers, w0, a, 0, first);
    RunIsSteps(s, w0, first);
    var c := b + On(1, [Fine(""), Fine("")]);
    JobBegins(triggers, w0, b, 1, Fine(""));
    var d := c + On(1, other);
    JobAdvances(triggers, w0, c, 1, other);
    RunIsSteps(t, After(triggers, w0, c).world, other);
    JobAdvances(triggers, w0, d, 0, rest);
  }

  lemma NothingBegun(triggers: seq<Secret>, w0: World)
    requires ValidTriggers(triggers)
    ensures After(triggers, w0, []) == Initial(triggers, w0)
  {}

  // ---------------------------------------------------------------- it happens

  /** A secret without a service whose restart fails: its file has been written
      and the undo is about to restore it. */
  lemma UpToTheUndo(s: Secret, w0: World, current: string, f: seq<Fate>)
    requires ValidSecret(s) && s.kind == Generic && |s.envFiles| == 1 && Primary(s) in w0.files
    requires Lookup(w0.files[Primary(s)], s.envKey) == Some(current)
    requires |f| == 6 && AllOk(f[..5]) && !f[5].ok && f[1].names != []
    ensures var r, p := Run(s, w0, f), Primary(s);
            && r.local.phase == Undoing(0) && r.local.failed == [] && r.local.journal.written == [p]
            && r.local.journal.next == f[3].text
            && r.world.files == w0.files[p := Edit(w0.files[p], s.envKey, f[3].text)] && r.world.cells == w0.cells
            && Plan(s.kind, r.local.journal) == [RestoreFileAction(p, w0.files[p]), RestartAction(f[1].names)]
  {
    hide Run, Step, Start, Lookup, Edit, ValidKey, Plan;
    RunNothing(s, w0, f);
    RunTake(s, w0, f, 0);
    RunTake(s, w0, f, 1);
    RunTake(s, w0, f, 2);
    RunTake(s, w0, f, 3);
    RunTake(s, w0, f, 4);
    RunTake(s, w0, f, 5);
    assert f[..6] == f;
    assert forall k :: 0 <= k < 5 ==> f[..5][k] == f[k];
    UpToTheWrite(s, w0, current, f[0], f[1], f[2], f[3]);
    WriteThenRestart(s, w0, Run(s, w0, f[..4]), current, f[3].text, f[4], f[5]);
  }

  lemma UpToTheWrite(s: Secret, w0: World, current: string, registry: Fate, fleet: Fate, file: Fate, generator: Fate)
    requires |s.envFiles| > 0 && s.kind == Generic && Primary(s) in w0.files
    requires Lookup(w0.files[Primary(s)], s.envKey) == Some(current)
    requires registry.ok && fleet.ok && file.ok && generator.ok
    ensures var r := Step(s, Step(s, Step(s, Step(s, State(Start(s), w0), registry), fleet), file), generator);
            && r.world == w0 && r.local.phase == Writing(0) && r.local.containers == fleet.names
            && r.local.cause == NoCause && r.local.failed == []
            && r.local.journal == WithGenerated(WithCurrent(EMPTY, Primary(s), current, w0.files[Primary(s)]),
                                                generator.text)
  {
    hide Lookup, ResolveAdminPassword, ApplyStep, VerifyStep, WriteStep, RestartStep, UndoStep, RecordStep;
    var r1 := Step(s, State(Start(s), w0), registry);
    assert r1.local.phase == Resolving;
    var r3 := Step(s, Step(s, r1, fleet), file);
    assert r3.local.phase == Generating && r3.world == w0;
  }

  lemma WriteThenRestart(s: Secret, w0: World, r: State, current: string, next: string, write: Fate, restart: Fate)
    requires s.kind == Generic && |s.envFiles| == 1 && Primary(s) in w0.files
    requires Lookup(w0.files[Primary(s)], s.envKey).Some?
    requires r.world == w0 && r.local.phase == Writing(0) && r.local.containers != [] && r.local.failed == []
    requires r.local.journal == WithGenerated(WithCurrent(EMPTY, Primary(s), current, w0.files[Primary(s)]), next)
    requires write.ok && !restart.ok
    ensures var r', p := Step(s, Step(s, r, write), restart), Primary(s);
            && r'.local.phase == Undoing(0) && r'.local.failed == [] && r'.local.journal.written == [p]
            && r'.local.journal.next == next
            && r'.world.files == w0.files[p := Edit(w0.files[p], s.envKey, next)] && r'.world.cells == w0.cells
            && Plan(s.kind, r'.local.journal) == [RestoreFileAction(p, w0.files[p]), RestartAction(r.local.containers)]
  {
    hide Lookup, Edit, LoadFirst;
    var p := Primary(s);
    var j := WithFileWritten(r.local.journal, p, w0.files[p]);
    OneWritten(s, p, current, next, w0.files[p], r.local.containers);
    hide Plan;
    var r1 := Step(s, r, write);
    assert r1.local.phase == Restarting && r1.local.journal == j && r1.local.containers == r.local.containers;
  }

  lemma OneWritten(s: Secret, p: string, current: string, next: string, text: string, containers: seq<string>)
    requires s.kind == Generic && containers != []
    ensures var j := WithGenerated(WithCurrent(EMPTY, p, current, text), next);
            var j' := WithRestarted(WithFileWritten(j, p, text), containers);
            && j'.written == [p] && j'.next == next
            && Plan(s.kind, j') == [RestoreFileAction(p, text), RestartAction(containers)]
  {
    var j := WithGenerated(WithCurrent(EMPTY, p, current, text), next);
    assert [p][..0] == [];
    assert FileActions([], j.backups) == [];
    assert FileActions([p], j.backups) == [RestoreFileAction(p, text)];
  }

  /** That undo, when nothing fails. */
  lemma RestUndone(s: Secret, r: State, p: string, text: string, containers: seq<string>, rest: seq<Fate>)
    requires |s.envFiles| > 0 && r.local.phase == Undoing(0) && r.local.failed == [] && p in r.world.files
    requires Plan(s.kind, r.local.journal) == [RestoreFileAction(p, text), RestartAction(containers)]
    requires |rest| == 3 && AllOk(rest)
    ensures var r' := Steps(s, r, rest);
            && r'.local.phase == Finished(RolledBack)
            && r'.world.files == r.world.files[p := text] && r'.world.cells == r.world.cells
  {
    hide Plan, LoadFirst, Step, Steps;
    ThreeSteps(s, r, rest);
    UndoneTwice(s, r, p, text, containers, rest[0], rest[1]);
    Recorded(s, Step(s, Step(s, r, rest[0]), rest[1]), rest[2]);
  }

  lemma ThreeSteps(s: Secret, r: State, rest: seq<Fate>)
    requires |s.envFiles| > 0 && |rest| == 3
    ensures Steps(s, r, rest) == Step(s, Step(s, Step(s, r, rest[0]), rest[1]), rest[2])
  {
    hide Step;
    var two, one := rest[..2], rest[..1];
    assert two[..1] == one && one[..0] == [];
    assert Steps(s, r, one) == Step(s, r, rest[0]);
    assert Steps(s, r, two) == Step(s, Steps(s, r, one), rest[1]);
  }

  lemma UndoneTwice(s: Secret, r: State, p: string, text: string, containers: seq<string>, a: Fate, b: Fate)
    requires |s.envFiles| > 0 && r.local.phase == Undoing(0) && r.local.failed == [] && p in r.world.files
    requires Plan(s.kind, r.local.journal) == [RestoreFileAction(p, text), RestartAction(containers)]
    requires a.ok && b.ok
    ensures var r' := Step(s, Step(s, r, a), b);
            && r'.local.phase == Recording(RolledBack)
            && r'.world.files == r.world.files[p := text] && r'.world.cells == r.world.cells
  {
    hide Plan, LoadFirst;
    var r1 := Step(s, r, a);
    assert r1.local.phase == Undoing(1) && r1.local.failed == [] && r1.local.journal == r.local.journal;
  }

  lemma Recorded(s: Secret, r: State, f: Fate)
    requires |s.envFiles| > 0 && r.local.phase.Recording?
    ensures Step(s, r, f).local.phase == Finished(r.local.phase.outcome)
    ensures Step(s, r, f).world.files == r.world.files && Step(s, r, f).world.cells == r.world.cells
  {}

  /** A file of two assignments. */
  lemma TwoEntries(keyA: string, a: string, keyB: string, b: string)
    requires ValidKey(keyA) && ValidKey(keyB) && keyA != keyB && Base64Url(a) && Base64Url(b)
    ensures var data := keyA + "=" + a + "\n" + keyB + "=" + b;
            Lookup(data, keyA) == Some(a) && Lookup(data, keyB) == Some(b)
  {
    hide ParseLine, ValidKey, Base64Url, Lookup, Unquote, TrimRight;
    UnquotedText(a);
    UnquotedText(b);
    ParseAssignment(keyA, a);
    ParseAssignment(keyB, b);
    AssignmentIsOneLine("", keyA, "=", a);
    AssignmentIsOneLine("", keyB, "=", b);
    assert "" + keyA + "=" + a == keyA + "=" + a && "" + keyB + "=" + b == keyB + "=" + b;
    ValidKeyIsSomething(keyA);
    ValidKeyIsSomething(keyB);
    LookupOfTwoLines(keyA + "=" + a, keyB + "=" + b);
    Regrouped(keyA + "=" + a + "\n", keyB, b);
  }

  lemma ValidKeyIsSomething(key: string)
    requires ValidKey(key)
    ensures key != ""
  {}

  lemma Regrouped(prefix: string, key: string, value: string)
    ensures prefix + key + "=" + value == prefix + (key + "=" + value)
  {}

  lemma LookupOfTwoLines(a: string, b: string)
    requires OneLine(a) && OneLine(b) && ParseLine(a).key != "" && ParseLine(b).key != ""
    requires ParseLine(a).key != ParseLine(b).key
    ensures Lookup(a + "\n" + b, ParseLine(a).key) == Some(ParseLine(a).value)
    ensures Lookup(a + "\n" + b, ParseLine(b).key) == Some(ParseLine(b).value)
  {
    hide ParseLine;
    SplitFirst(a, b);
    assert SplitLines(b) == [b];
    hide SplitLines;
    var lines := [ParseLine(a), ParseLine(b)];
    assert ParseLines(a + "\n" + b) == lines;
    hide ParseLines;
    assert lines[..1] == [ParseLine(a)];
    assert LastIndex(lines, ParseLine(b).key) == 1 && LastIndex(lines[..1], ParseLine(a).key) == 0;
  }

  /** Two triggers, one file, one failing restart: the first rotation ends as a
      clean rollback, the second as a success, and yet the file has the second
      secret's old value and the service the new one. */
  lemma OverlapHappens() returns (s: Secret, t: Secret, w0: World, turns: seq<Turn>)
    ensures ValidTriggers([s, t]) && ValidSchedule([s, t], turns)
    ensures Chain.AllSeparate([s, t]) && |t.envFiles| > 0 && InForce(t, w0)
    ensures var d := After([s, t], w0, turns);
            && (d.jobs[0].Running? || d.jobs[0].Returned?) && d.jobs[0].local.phase == Finished(RolledBack)
            && (d.jobs[1].Running? || d.jobs[1].Returned?) && d.jobs[1].local.phase == Finished(Success)
            && d.world.files == w0.files && !InForce(t, d.world)
  {
    hide Lookup, Edit, ValidKey, Base64Url, Run, Step, Steps, After, InForce, Plan, FaultFree, AllFaultFree, AllOk,
      ValidTriggers, ValidSchedule, Chain.SelfRotating, OtherState, RestState, Overlapping, Fine;
    var file := ".env";
    s := Secret("app", Generic, "APP", [file], ["web"], Target("", "", "", "", ""));
    t := Secret("cache", Redis, "KEY", [file], [], Target("cache", "", "", "", ""));
    var text := "APP" + "=" + "old" + "\n" + "KEY" + "=" + "old";
    w0 := World(map[file := text], map[Account("cache", DEFAULT_USER) := Cell("old", "old")], map[], []);
    var first, other, rest := Schedules();
    turns := Overlapping(first, other, rest);
    ValidApp();
    TwoEntries("APP", "old", "KEY", "old");
    CacheInForce(t, w0);
    OneIsLost(s, t, w0, file, text, first, other, rest);
    OverlappingRuns(s, t, w0, first, other, rest);
  }

  /** Answers for a restart that fails, for a rotation without faults, and for
      an undo without faults. */
  lemma Schedules() returns (first: seq<Fate>, other: seq<Fate>, rest: seq<Fate>)
    ensures |first| == 6 && AllOk(first[..5]) && !first[5].ok && first[1].names != [] && first[3].text == "new"
    ensures |other| == 14 && AllFaultFree(other) && other[3].text == "new" && |rest| == 3 && AllOk(rest)
  {
    var ok := Fine("new");
    first := [ok, ok.(names := ["web"]), ok, ok, ok, ok.(ok := false)];
    other, rest := seq(14, _ => ok), [ok, ok, ok];
  }

  /** The same for any secrets of that shape. */
  lemma OneIsLost(s: Secret, t: Secret, w0: World, file: string, text: string,
                  first: seq<Fate>, other: seq<Fate>, rest: seq<Fate>)
    requires ValidSecret(s) && ValidSecret(t) && Chain.Separate(s, t) && s.envFiles == [file] == t.envFiles
    requires s.kind == Generic && Chain.SelfRotating(t) && w0.files == map[file := text]
    requires Lookup(text, s.envKey).Some? && InForce(t, w0)
    requires |first| == 6 && AllOk(first[..5]) && !first[5].ok && first[1].names != []
    requires |other| == 14 && AllFaultFree(other) && |rest| == 3 && AllOk(rest)
    requires Base64Url(first[3].text) && Base64Url(other[3].text) && Lookup(text, t.envKey) != Some(other[3].text)
    ensures Run(s, w0, first).local.phase == Undoing(0)
    ensures OtherState(s, t, w0, first, other).local.phase == Finished(Success)
    ensures var r := RestState(s, t, w0, first, other, rest);
            r.local.phase == Finished(RolledBack) && r.world.files == w0.files && !InForce(t, r.world)
  {
    hide Lookup, Edit, ValidKey, Base64Url, Run, Step, Steps, InForce, Plan, DryRun.Prepared, FaultFree, Inv,
      Chain.SelfRotating;
    SelfRotatingOwner(t);
    UpToTheUndo(s, w0, Lookup(text, s.envKey).value, first);
    var r1 := Run(s, w0, first);
    Chain.OthersStayInStep(s, t, w0, first);
    SelfRotatingIsPrepared(t, r1.world, other[3].text);
    OtherSucceeds(t, r1.world, other);
    var r2 := Run(t, r1.world, other);
    assert r2.world.files.Keys == {file};
    RestUndone(s, State(r1.local, r2.world), file, text, first[1].names, rest);
    var r3 := Steps(s, State(r1.local, r2.world), rest);
    assert r3.world.files == w0.files;
    OutOfStep(t, r3.world, other[3].text);
  }

  /** A self-rotating account in step is ready to be rotated. */
  lemma SelfRotatingIsPrepared(t: Secret, w: World, next: string)
    requires |t.envFiles| == 1 && Chain.SelfRotating(t) && InForce(t, w)
    ensures DryRun.Prepared(t, w, next)
  {
    hide Lookup, ResolveAdminPassword, Chain.SelfRotating, AdminAccount;
    Chain.SelfRotatingConnectsWithCurrent(t, w.files[Primary(t)], Lookup(w.files[Primary(t)], t.envKey).value);
    SelfRotatingOwner(t);
  }

  lemma SelfRotatingOwner(t: Secret)
    requires Chain.SelfRotating(t)
    ensures AdminAccount(t.kind, t.target) == Owner(t) && HasBackingService(t.kind)
  {}

  lemma OtherSucceeds(t: Secret, w: World, other: seq<Fate>)
    requires ValidSecret(t) && HasBackingService(t.kind) && |other| >= 2 * |t.envFiles| + 12 && AllFaultFree(other)
    requires DryRun.Prepared(t, w, other[3].text)
    ensures var r, next := Run(t, w, other), other[3].text;
            && r.local.phase == Finished(Success) && r.world.files.Keys == w.files.Keys
            && Owner(t) in r.world.cells && r.world.cells[Owner(t)] == Cell(next, next)
  {
    hide Run, DryRun.Prepared, AllFaultFree, ValidKey;
    DryRun.FaultFreeRunFollowsThePlan(t, w, other);
    Chain.SuccessGenerates(t, w, other);
    SuccessKeepsFiles(t, w, other);
  }

  lemma SuccessKeepsFiles(t: Secret, w: World, fates: seq<Fate>)
    requires ValidSecret(t) && HasBackingService(t.kind) && Run(t, w, fates).local.phase == Finished(Success)
    ensures var r := Run(t, w, fates); var next := r.local.journal.next;
            r.world.files.Keys == w.files.Keys && Owner(t) in r.world.cells
              && r.world.cells[Owner(t)] == Cell(next, next)
  {
    hide Run, Lookup, Edit, AllLoaded, SameLoadsElsewhere, ValidKey, Base64Url;
    SuccessIsComplete(t, w, fates);
  }

  lemma OutOfStep(t: Secret, w: World, value: string)
    requires |t.envFiles| > 0 && Primary(t) in w.files && Lookup(w.files[Primary(t)], t.envKey) != Some(value)
    requires Owner(t) in w.cells && w.cells[Owner(t)] == Cell(value, value)
    ensures !InForce(t, w)
  {
    hide Lookup;
  }

  lemma ValidApp()
    ensures ValidKey("APP") && ValidKey("KEY") && Base64Url("old") && Base64Url("new")
  {}

  lemma CacheInForce(t: Secret, w0: World)
    requires t.kind == Redis && t.envFiles == [".env"] && t.target == Target("cache", "", "", "", "")
    requires ".env" in w0.files && Lookup(w0.files[".env"], t.envKey) == Some("old")
    requires w0.cells == map[Account("cache", DEFAULT_USER) := Cell("old", "old")]
    ensures InForce(t, w0) && Chain.SelfRotating(t)
  {
    hide Lookup;
  }
}
