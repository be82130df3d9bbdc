/** How a rotation ends, read off the answers its calls get: the first call
    that is not answered decides, and each undo action fails on its own. */
module Outcomes {
  import opened Text
  import opened EnvFiles
  import opened Compose
  import opened Domain
  import opened Rotations
  import opened Saga
  import opened Guarantees

  // ---------------------------------------------------------------- the calls of a rotation

  /** The number of the call that writes the first file. */
  function FirstWrite(s: Secret): nat
  {
    if HasBackingService(s.kind) then 6 else 4
  }

  /** How many calls a rotation makes before its audit record, if none fails. */
  function Calls(s: Secret, fates: seq<Fate>): nat
  {
    FirstWrite(s) + |s.envFiles| + if |fates| > 1 && fates[1].names != [] then 1 else 0
  }

  ghost predicate HoldsKey(s: Secret, files: Files, path: string)
  {
    path in files && Lookup(files[path], s.envKey).Some?
  }

  /** The password that the rotation connects with, once the primary file has
      been found to hold the key. */
  ghost function AdminPassword(s: Secret, w0: World): string
    requires |s.envFiles| > 0
  {
    if !HoldsKey(s, w0.files, Primary(s)) then ""
    else
      var doc := w0.files[Primary(s)];
      ResolveAdminPassword(s.target, doc, Lookup(doc, s.envKey).value).adminPassword
  }

  /** The account that is connected as is the one that changes. */
  predicate ChangesItself(s: Secret)
  {
    AdminAccount(s.kind, s.target) == Owner(s)
  }

  /** The service changes the password: both accounts are there, the one that
      is connected as accepts its password, and every command is answered. */
  ghost predicate ApplyAnswered(s: Secret, w0: World, f: Fate)
    requires |s.envFiles| > 0
  {
    if s.kind == Command then f.ok
    else
      && Owner(s) in w0.cells && Accepts(w0.cells, AdminAccount(s.kind, s.target), AdminPassword(s, w0))
      && f.sets && if s.kind == Redis then f.persists else f.connects
  }

  /** A login with the new value works: always, but for a Redis user other than
      the default one, who must have had it as the password before. */
  ghost predicate LoginAnswered(s: Secret, w0: World, next: string, f: Fate)
    requires |s.envFiles| > 0
  {
    f.ok && (s.kind == Redis && !ChangesItself(s) ==> AdminPassword(s, w0) == next)
  }

  /** Call k, made because all calls before it were answered, is answered. */
  ghost predicate Answered(s: Secret, w0: World, fates: seq<Fate>, k: nat)
    requires |s.envFiles| > 0 && k < |fates|
  {
    var service, f := HasBackingService(s.kind), fates[k];
    if k == 2 then f.ok && HoldsKey(s, w0.files, Primary(s))
    else if service && k == 4 then ApplyAnswered(s, w0, f)
    else if service && k == 5 then LoginAnswered(s, w0, fates[3].text, f)
    else if FirstWrite(s) <= k < FirstWrite(s) + |s.envFiles|
    then f.ok && HoldsKey(s, w0.files, s.envFiles[k - FirstWrite(s)])
    else f.ok
  }

  /** Calls 0 to k - 1 are answered. */
  ghost predicate AnsweredUpTo(s: Secret, w0: World, fates: seq<Fate>, k: nat)
    requires |s.envFiles| > 0 && k <= |fates|
  {
    forall i :: 0 <= i < k ==> Answered(s, w0, fates, i)
  }

  // ---------------------------------------------------------------- while all calls are answered

  /** What the rotation is about to do after m answered calls. */
  function PhaseAt(s: Secret, fates: seq<Fate>, m: nat): Phase
  {
    if m == 0 then Looking
    else if m == 1 then Resolving
    else if m == 2 then Reading
    else if m == 3 then Generating
    else if m < FirstWrite(s) then if m == 4 then Applying else Verifying
    else if m < FirstWrite(s) + |s.envFiles| then Writing(m - FirstWrite(s))
    else if m < Calls(s, fates) then Restarting
    else Recording(Success)
  }

  /** The step on record after m answered calls. */
  function StepAt(s: Secret, fates: seq<Fate>, m: nat): StepName
  {
    if m < 3 then Pending
    else if m == 3 then Read
    else if m < FirstWrite(s) then if m == 4 then Generated else Applied
    else if m == FirstWrite(s) then if HasBackingService(s.kind) then Verified else Generated
    else if m < Calls(s, fates) then FilesUpdated
    else Done
  }

  /** Where the machine is after m answered calls. */
  ghost predicate OnCourse(s: Secret, w0: World, fates: seq<Fate>, m: nat, l: Local)
  {
    && l.phase == PhaseAt(s, fates, m)
    && l.cause == NoCause && l.failed == []
    && (m > 1 ==> |fates| > 1 && l.containers == fates[1].names)
    && (m > 3 ==> |fates| > 3 && l.journal.next == fates[3].text)
    && l.journal.step == StepAt(s, fates, m)
  }

  /** Why the rotation is given up when call m is not answered. */
  function CauseAt(s: Secret, m: nat): Cause
  {
    if m < 3 then NoCause
    else if m == 3 then GenerateFailed
    else if m < FirstWrite(s) then if m == 4 then ApplyFailed else VerifyFailed
    else if m < FirstWrite(s) + |s.envFiles| then WriteFailed
    else RestartFailed
  }

  /** How many files have been written when call m is made. */
  function WrittenBefore(s: Secret, m: nat): nat
  {
    if m < FirstWrite(s) then 0 else if m - FirstWrite(s) < |s.envFiles| then m - FirstWrite(s) else |s.envFiles|
  }

  /** How many undo actions follow when call m is not answered. */
  function UndoCalls(s: Secret, m: nat): nat
  {
    WrittenBefore(s, m) + (if CauseAt(s, m) == RestartFailed then 1 else 0)
    + if HasBackingService(s.kind) && m > 4 then 1 else 0
  }

  /** The machine has turned back because call m was not answered. */
  ghost predicate TurnedBack(s: Secret, fates: seq<Fate>, m: nat, l: Local)
  {
    if m < 3 then l.phase == Finished(Refused)
    else
      && l.phase == UndoFrom(s.kind, l, 0) && l.failed == [] && l.cause == CauseAt(s, m)
      && |l.journal.written| == WrittenBefore(s, m)
      && l.journal.step == StepOnFailure(s, fates, m)
  }

  /** The step on record when call m is not answered: a restart is recorded
      before it is known to have worked. */
  function StepOnFailure(s: Secret, fates: seq<Fate>, m: nat): StepName
  {
    if CauseAt(s, m) == RestartFailed then Restarted else StepAt(s, fates, m)
  }

  /** One more call. */
  lemma OneMoreCall(s: Secret, w0: World, fates: seq<Fate>, m: nat, r: State)
    requires ValidSecret(s) && Inv(s, w0, r) && AppliedOverConnection(s, w0, r.local)
    requires m < |fates| && m < Calls(s, fates) && AnsweredUpTo(s, w0, fates, m) && OnCourse(s, w0, fates, m, r.local)
    ensures Answered(s, w0, fates, m) ==> OnCourse(s, w0, fates, m + 1, Step(s, r, fates[m]).local)
    ensures !Answered(s, w0, fates, m) ==> TurnedBack(s, fates, m, Step(s, r, fates[m]).local)
  {
    HasFiles(s);
    hide Step, OnCourse, AnsweredUpTo, Answered, TurnedBack, Inv, AppliedOverConnection, ValidSecret, PhaseAt;
    CourseOf(s, w0, fates, m, r.local);
    match r.local.phase {
      case Looking => EarlyCall(s, w0, fates, m, r);
      case Resolving => EarlyCall(s, w0, fates, m, r);
      case Reading => ReadCall(s, w0, fates, m, r);
      case Generating => GenerateCall(s, w0, fates, m, r);
      case Applying => ApplyCall(s, w0, fates, m, r);
      case Verifying => VerifyCall(s, w0, fates, m, r);
      case Writing(_) => WriteCall(s, w0, fates, m, r);
      case Restarting => RestartCall(s, w0, fates, m, r);
      case _ =>
    }
  }

  /** Which call is made in which phase. */
  lemma CourseOf(s: Secret, w0: World, fates: seq<Fate>, m: nat, l: Local)
    requires |s.envFiles| > 0 && m < Calls(s, fates) && OnCourse(s, w0, fates, m, l)
    ensures match l.phase
            case Looking => m == 0
            case Resolving => m == 1
            case Reading => m == 2
            case Generating => m == 3
            case Applying => m == 4 && HasBackingService(s.kind)
            case Verifying => m == 5 && HasBackingService(s.kind)
            case Writing(i) => m == FirstWrite(s) + i && i < |s.envFiles|
            case Restarting => m == FirstWrite(s) + |s.envFiles| && |fates| > 1 && fates[1].names != []
            case _ => false
  {}

  lemma EarlyCall(s: Secret, w0: World, fates: seq<Fate>, m: nat, r: State)
    requires |s.envFiles| > 0 && m < 2 && m < |fates| && OnCourse(s, w0, fates, m, r.local)
    ensures Answered(s, w0, fates, m) ==> OnCourse(s, w0, fates, m + 1, Step(s, r, fates[m]).local)
    ensures !Answered(s, w0, fates, m) ==> TurnedBack(s, fates, m, Step(s, r, fates[m]).local)
  {
    hide Lookup, ReadStep, GenerateStep, ApplyStep, VerifyStep, WriteStep, RestartStep, UndoStep, RecordStep;
  }

  lemma ReadCall(s: Secret, w0: World, fates: seq<Fate>, m: nat, r: State)
    requires ValidSecret(s) && m == 2 && m < |fates| && OnCourse(s, w0, fates, m, r.local) && Inv(s, w0, r)
    ensures Answered(s, w0, fates, m) ==> OnCourse(s, w0, fates, m + 1, Step(s, r, fates[m]).local)
    ensures !Answered(s, w0, fates, m) ==> TurnedBack(s, fates, m, Step(s, r, fates[m]).local)
  {
    hide Lookup, ResolveAdminPassword, Inv, GenerateStep, ApplyStep, VerifyStep, WriteStep, RestartStep, UndoStep,
      RecordStep;
    UntouchedWorld(s, w0, r);
  }

  lemma GenerateCall(s: Secret, w0: World, fates: seq<Fate>, m: nat, r: State)
    requires ValidSecret(s) && m == 3 && m < |fates| && OnCourse(s, w0, fates, m, r.local) && Inv(s, w0, r)
    ensures Answered(s, w0, fates, m) ==> OnCourse(s, w0, fates, m + 1, Step(s, r, fates[m]).local)
    ensures !Answered(s, w0, fates, m) ==> TurnedBack(s, fates, m, Step(s, r, fates[m]).local)
  {
    hide Lookup, ResolveAdminPassword, FilesInv, CellsInv, LoadedInv, LogInv, JournalFacts, ReadStep, ApplyStep,
      VerifyStep, WriteStep, RestartStep, UndoStep, RecordStep, FileActions;
  }

  /** What the journal holds once the current value has been read. */
  lemma CourseJournal(s: Secret, w0: World, r: State)
    requires |s.envFiles| > 0 && Inv(s, w0, r) && !Untouched(r.local.phase)
    ensures HoldsKey(s, w0.files, Primary(s))
    ensures r.local.target.adminPassword == AdminPassword(s, w0)
    ensures TargetAccount(s.kind, r.local.target) == Owner(s)
    ensures AdminAccount(s.kind, r.local.target) == AdminAccount(s.kind, s.target)
    ensures r.local.phase == Applying || r.local.phase == Verifying ==> r.local.journal.written == []
  {
    hide Lookup, ResolveAdminPassword, FilesInv, CellsInv, LoadedInv, LogInv, Plan;
    ResolvedOwner(s, w0.files[Primary(s)], r.local.journal.previous);
  }

  lemma ApplyCall(s: Secret, w0: World, fates: seq<Fate>, m: nat, r: State)
    requires ValidSecret(s) && m == 4 && m < |fates| && OnCourse(s, w0, fates, m, r.local) && Inv(s, w0, r)
    requires HasBackingService(s.kind)
    ensures Answered(s, w0, fates, m) ==> OnCourse(s, w0, fates, m + 1, Step(s, r, fates[m]).local)
    ensures !Answered(s, w0, fates, m) ==> TurnedBack(s, fates, m, Step(s, r, fates[m]).local)
  {
    hide Inv, AdminPassword, Lookup, Plan, AdminAccount, TargetAccount, ReadStep, GenerateStep, VerifyStep, WriteStep,
      RestartStep, UndoStep, RecordStep, SqlApply, RedisApply, CommandRun;
    CourseJournal(s, w0, r);
    ReadState(s, w0, r);
    ApplyAnswers(s, w0, r.local.target, r.local.journal.next, fates[m]);
    hide Apply, ApplyAnswered;
  }

  lemma ApplyAnswers(s: Secret, w0: World, t: Target, next: string, f: Fate)
    requires |s.envFiles| > 0 && HasBackingService(s.kind) && t.adminPassword == AdminPassword(s, w0)
    requires TargetAccount(s.kind, t) == Owner(s) && AdminAccount(s.kind, t) == AdminAccount(s.kind, s.target)
    ensures Apply(s.kind, t, w0.cells, next, f).0 <==> ApplyAnswered(s, w0, f)
  {
    hide AdminPassword, AdminAccount, TargetAccount;
  }

  /** While the machine verifies, the service holds the new value. */
  lemma AppliedCells(s: Secret, w0: World, r: State)
    requires |s.envFiles| > 0 && Inv(s, w0, r) && r.local.phase == Verifying
    ensures r.world.cells == w0.cells[Owner(s) := Cell(r.local.journal.next, r.local.journal.next)]
    ensures WasApplied(s, r.local.journal)
  {
    hide Lookup, JournalFacts, FilesInv, LoadedInv, LogInv;
  }

  lemma VerifyCall(s: Secret, w0: World, fates: seq<Fate>, m: nat, r: State)
    requires ValidSecret(s) && m == 5 && m < |fates| && OnCourse(s, w0, fates, m, r.local) && Inv(s, w0, r)
    requires HasBackingService(s.kind) && AppliedOverConnection(s, w0, r.local)
    ensures Answered(s, w0, fates, m) ==> OnCourse(s, w0, fates, m + 1, Step(s, r, fates[m]).local)
    ensures !Answered(s, w0, fates, m) ==> TurnedBack(s, fates, m, Step(s, r, fates[m]).local)
  {
    hide Inv, AdminPassword, Lookup, Plan, AdminAccount, TargetAccount, ReadStep, GenerateStep, ApplyStep, WriteStep,
      RestartStep, UndoStep, RecordStep;
    CourseJournal(s, w0, r);
    AppliedCells(s, w0, r);
    LoginAnswers(s, w0, r.local.target, r.world.cells, r.local.journal.next, fates[m]);
    hide Verify, LoginAnswered, AppliedOverConnection;
  }

  lemma LoginAnswers(s: Secret, w0: World, t: Target, cells: Cells, next: string, f: Fate)
    requires |s.envFiles| > 0 && HasBackingService(s.kind) && t.adminPassword == AdminPassword(s, w0)
    requires TargetAccount(s.kind, t) == Owner(s) && AdminAccount(s.kind, t) == AdminAccount(s.kind, s.target)
    requires cells == w0.cells[Owner(s) := Cell(next, next)]
    requires s.kind != Command ==> Accepts(w0.cells, AdminAccount(s.kind, s.target), t.adminPassword)
    ensures Verify(s.kind, t, cells, next, f) <==> LoginAnswered(s, w0, next, f)
  {
    hide AdminPassword, AdminAccount, TargetAccount;
  }

  lemma WriteCall(s: Secret, w0: World, fates: seq<Fate>, m: nat, r: State)
    requires ValidSecret(s) && m < |fates| && OnCourse(s, w0, fates, m, r.local) && Inv(s, w0, r)
    requires r.local.phase.Writing? && m == FirstWrite(s) + r.local.phase.i && r.local.phase.i < |s.envFiles|
    ensures Answered(s, w0, fates, m) ==> OnCourse(s, w0, fates, m + 1, Step(s, r, fates[m]).local)
    ensures !Answered(s, w0, fates, m) ==> TurnedBack(s, fates, m, Step(s, r, fates[m]).local)
  {
    hide JournalInv, FilesInv, CellsInv, LoadedInv, LogInv, Lookup, Edit, Plan, ReadStep, GenerateStep, ApplyStep,
      VerifyStep, RestartStep, UndoStep, RecordStep, ValidKey;
    var i := r.local.phase.i;
    NextFileIsUnwritten(s, w0, r.local);
    UnwrittenFile(s, w0, r.local, r.world, s.envFiles[i]);
    WriteStepCases(s, r.local, r.world, fates[m]);
    hide WriteStep;
  }

  lemma RestartCall(s: Secret, w0: World, fates: seq<Fate>, m: nat, r: State)
    requires ValidSecret(s) && m < |fates| && OnCourse(s, w0, fates, m, r.local) && Inv(s, w0, r)
    requires r.local.phase == Restarting && m == FirstWrite(s) + |s.envFiles| && |fates| > 1 && fates[1].names != []
    ensures Answered(s, w0, fates, m) ==> OnCourse(s, w0, fates, m + 1, Step(s, r, fates[m]).local)
    ensures !Answered(s, w0, fates, m) ==> TurnedBack(s, fates, m, Step(s, r, fates[m]).local)
  {
    hide FilesInv, CellsInv, LoadedInv, LogInv, JournalFacts, Lookup, Edit, Plan, ReadStep, GenerateStep, ApplyStep,
      VerifyStep, WriteStep, UndoStep, RecordStep, LoadFirst;
  }

  /** As long as every call is answered the machine is where it should be. */
  lemma {:induction false} StaysOnCourse(s: Secret, w0: World, fates: seq<Fate>, m: nat)
    requires ValidSecret(s) && m <= |fates| && m <= Calls(s, fates) && AnsweredUpTo(s, w0, fates, m)
    ensures OnCourse(s, w0, fates, m, Run(s, w0, fates[..m]).local)
  {
    HasFiles(s);
    hide Step, Inv, AppliedOverConnection, Answered, OnCourse, ValidSecret, Run;
    if m == 0 {
      RunNothing(s, w0, fates);
      StartsOnCourse(s, w0, fates);
    } else {
      StaysOnCourse(s, w0, fates, m - 1);
      RunKeepsInv(s, w0, fates[..m-1]);
      RunKeepsConnection(s, w0, fates[..m-1]);
      RunTake(s, w0, fates, m - 1);
      OneMoreCall(s, w0, fates, m - 1, Run(s, w0, fates[..m-1]));
    }
  }

  lemma StartsOnCourse(s: Secret, w0: World, fates: seq<Fate>)
    ensures OnCourse(s, w0, fates, 0, Start(s))
  {}

  /** Call m is the first that is not answered. */
  ghost predicate FailsFirst(s: Secret, w0: World, fates: seq<Fate>, m: nat)
    requires |s.envFiles| > 0
  {
    m < |fates| && m < Calls(s, fates) && AnsweredUpTo(s, w0, fates, m) && !Answered(s, w0, fates, m)
  }

  lemma TurnsBack(s: Secret, w0: World, fates: seq<Fate>, m: nat)
    requires ValidSecret(s) && FailsFirst(s, w0, fates, m)
    ensures TurnedBack(s, fates, m, Run(s, w0, fates[..m+1]).local)
  {
    HasFiles(s);
    hide Step, Inv, AppliedOverConnection, Answered, AnsweredUpTo, OnCourse, ValidSecret, TurnedBack, Run;
    StaysOnCourse(s, w0, fates, m);
    RunKeepsInv(s, w0, fates[..m]);
    RunKeepsConnection(s, w0, fates[..m]);
    RunTake(s, w0, fates, m);
    OneMoreCall(s, w0, fates, m, Run(s, w0, fates[..m]));
  }

  // ---------------------------------------------------------------- the undo, call by call

  /** The service takes the old password back.  `held` is what the account that
      is connected as holds by then: an SQL restore tries the password it was
      applied with and, where the account changes itself, the new one; a Redis
      restore tries the old and the new value. */
  ghost predicate RestoreAnswered(s: Secret, w0: World, previous: string, next: string, f: Fate)
    requires |s.envFiles| > 0
  {
    var held := if ChangesItself(s) then next else AdminPassword(s, w0);
    match s.kind
    case Command => f.ok
    case Generic => true
    case Redis => f.sets && f.persists && ((f.connects && held == previous) || (f.reconnects && held == next))
    case _ => f.sets && ((f.connects && held == AdminPassword(s, w0)) || (f.reconnects && ChangesItself(s)))
  }

  /** Undo action k, which is met by this fate, works: restoring a file or
      restarting needs one good answer, the credential all of its commands. */
  ghost predicate UndoAnswered(s: Secret, w0: World, j: Journal, k: nat, f: Fate)
    requires |s.envFiles| > 0
  {
    if k < |j.written| + (if j.restarted == [] then 0 else 1) then f.ok
    else RestoreAnswered(s, w0, j.previous, j.next, f)
  }

  /** The positions of the first j undo actions that were not answered. */
  ghost function Unanswered(s: Secret, w0: World, l: Local, fates: seq<Fate>, from: nat, j: nat): (failed: seq<nat>)
    requires |s.envFiles| > 0 && from + j <= |fates|
    ensures forall k: nat :: k in failed <==> k < j && !UndoAnswered(s, w0, l.journal, k, fates[from+k])
  {
    if j == 0 then []
    else
      var init := Unanswered(s, w0, l, fates, from, j - 1);
      if UndoAnswered(s, w0, l.journal, j - 1, fates[from+j-1]) then init else init + [j - 1]
  }

  lemma UndoAnswers(s: Secret, w0: World, r: State, f: Fate)
    requires ValidSecret(s) && Inv(s, w0, r) && AppliedOverConnection(s, w0, r.local) && r.local.phase.Undoing?
    ensures var l, j := r.local, r.local.phase.j;
            && j < |Plan(s.kind, l.journal)|
            && UndoAction(s, l, r.world, Plan(s.kind, l.journal)[j], f).0 == UndoAnswered(s, w0, l.journal, j, f)
  {
    hide JournalInv, FilesInv, CellsInv, LoadedInv, LogInv, AppliedOverConnection, Plan, Restore, RestoreAnswered,
      ValidKey, LoadFirst, RestartActions;
    var l, w, j := r.local, r.world, r.local.phase.j;
    UndoPosition(s, w0, l, j);
    if j < |l.journal.written| {
      RestoreFileAnswers(s, w0, l, w, j);
    } else if j == |l.journal.written| + |RestartActions(l.journal)| {
      RestoreAnswers(s, w0, r, f);
    }
  }

  lemma RestoreFileAnswers(s: Secret, w0: World, l: Local, w: World, j: nat)
    requires FilesInv(s, w0, l, w) && j < |l.journal.written|
    ensures l.journal.written[j] in w.files
  {
    hide Lookup, Edit, Undone;
    assert l.journal.written[j] in w.files.Keys;
  }

  lemma RestoreAnswers(s: Secret, w0: World, r: State, f: Fate)
    requires |s.envFiles| > 0 && Inv(s, w0, r) && AppliedOverConnection(s, w0, r.local) && r.local.phase.Undoing?
    requires WasApplied(s, r.local.journal) && r.local.phase.j == CredentialAt(r.local.journal)
    ensures var l := r.local;
            Restore(s.kind, l.target, r.world.cells, l.journal.previous, l.journal.next, f).0
            == RestoreAnswered(s, w0, l.journal.previous, l.journal.next, f)
  {
    hide JournalInv, FilesInv, LoadedInv, LogInv, Restore, RestoreAnswered, AdminPassword, RestartActions,
      AdminAccount, TargetAccount;
    CourseJournal(s, w0, r);
    RestoreIsAnswered(s, w0, r.local.target, r.world.cells, r.local.journal.previous, r.local.journal.next, f);
  }

  lemma RestoreIsAnswered(s: Secret, w0: World, t: Target, cells: Cells, previous: string, next: string, f: Fate)
    requires |s.envFiles| > 0 && HasBackingService(s.kind) && t.adminPassword == AdminPassword(s, w0)
    requires TargetAccount(s.kind, t) == Owner(s) && AdminAccount(s.kind, t) == AdminAccount(s.kind, s.target)
    requires cells == w0.cells[Owner(s) := Cell(next, next)]
    requires s.kind != Command ==> Accepts(w0.cells, AdminAccount(s.kind, s.target), t.adminPassword)
    ensures Restore(s.kind, t, cells, previous, next, f).0 == RestoreAnswered(s, w0, previous, next, f)
  {
    hide AdminPassword, LoadFirst;
    SelfMeans(s.kind, t);
  }

  lemma SelfMeans(kind: Kind, t: Target)
    ensures kind != Redis ==>
              (AdminAccount(kind, t) == TargetAccount(kind, t) <==> t.adminUser == EffectiveTargetUser(t))
  {}

  /** The machine after j undo actions, of which these have failed. */
  ghost predicate UndoneSoFar(s: Secret, back: Local, j: nat, failed: seq<nat>, l: Local)
  {
    l == back.(failed := failed, phase := UndoFrom(s.kind, back.(failed := failed), j))
  }

  lemma NothingUndoneYet(s: Secret, w0: World, back: Local, fates: seq<Fate>, from: nat)
    requires |s.envFiles| > 0 && from <= |fates|
    requires back.phase == UndoFrom(s.kind, back, 0) && back.failed == []
    ensures UndoneSoFar(s, back, 0, Unanswered(s, w0, back, fates, from, 0), back)
  {
    hide Plan;
  }

  lemma OneMoreUndone(s: Secret, back: Local, j: nat, failed: seq<nat>, l: Local, ok: bool)
    requires UndoneSoFar(s, back, j, failed, l) && j < |Plan(s.kind, back.journal)|
    ensures l.phase == Undoing(j) && l.journal == back.journal
    ensures UndoneSoFar(s, back, j + 1, if ok then failed else failed + [j], AfterUndo(s, l, j, ok))
  {
    hide Plan;
  }

  lemma UnansweredSnoc(s: Secret, w0: World, l: Local, fates: seq<Fate>, from: nat, j: nat)
    requires |s.envFiles| > 0 && from + j < |fates|
    ensures Unanswered(s, w0, l, fates, from, j + 1)
         == if UndoAnswered(s, w0, l.journal, j, fates[from+j]) then Unanswered(s, w0, l, fates, from, j)
            else Unanswered(s, w0, l, fates, from, j) + [j]
  {
    hide UndoAnswered;
  }

  /** One more undo action. */
  lemma OneMoreAction(s: Secret, w0: World, back: Local, j: nat, failed: seq<nat>, r: State, f: Fate)
    requires ValidSecret(s) && Inv(s, w0, r) && AppliedOverConnection(s, w0, r.local)
    requires UndoneSoFar(s, back, j, failed, r.local) && j < |Plan(s.kind, back.journal)|
    ensures |s.envFiles| > 0
    ensures UndoneSoFar(s, back, j + 1, if UndoAnswered(s, w0, back.journal, j, f) then failed else failed + [j],
                        Step(s, r, f).local)
  {
    HasFiles(s);
    hide Step, Inv, AppliedOverConnection, UndoAnswered, ValidSecret, Plan, UndoneSoFar, AfterUndo, UndoAction,
      UndoFrom;
    OneMoreUndone(s, back, j, failed, r.local, UndoAnswered(s, w0, back.journal, j, f));
    UndoAnswers(s, w0, r, f);
    UndoStepIs(s, r, f);
  }

  /** After j undo actions those that were not answered have failed. */
  ghost predicate UndoTrace(s: Secret, w0: World, fates: seq<Fate>, from: nat, j: nat, back: Local)
    requires |s.envFiles| > 0 && from + j <= |fates|
  {
    UndoneSoFar(s, back, j, Unanswered(s, w0, back, fates, from, j), Run(s, w0, fates[..from+j]).local)
  }

  lemma OneMoreTraced(s: Secret, w0: World, fates: seq<Fate>, from: nat, j: nat, back: Local)
    requires ValidSecret(s) && |s.envFiles| > 0 && from + j < |fates| && j < |Plan(s.kind, back.journal)|
    requires UndoTrace(s, w0, fates, from, j, back)
    ensures UndoTrace(s, w0, fates, from, j + 1, back)
  {
    hide ValidSecret, Plan, UndoneSoFar, Unanswered, Run, Step, Inv, AppliedOverConnection, UndoAnswered;
    var to := from + j;
    RunKeepsInv(s, w0, fates[..to]);
    RunKeepsConnection(s, w0, fates[..to]);
    RunTake(s, w0, fates, to);
    UnansweredSnoc(s, w0, back, fates, from, j);
    OneMoreAction(s, w0, back, j, Unanswered(s, w0, back, fates, from, j), Run(s, w0, fates[..to]), fates[to]);
  }

  lemma {:induction false} UndoProceeds(s: Secret, w0: World, fates: seq<Fate>, from: nat, j: nat, back: Local)
    requires ValidSecret(s) && |s.envFiles| > 0 && from + j <= |fates| && back == Run(s, w0, fates[..from]).local
    requires back.phase == UndoFrom(s.kind, back, 0) && back.failed == [] && j <= |Plan(s.kind, back.journal)|
    ensures UndoTrace(s, w0, fates, from, j, back)
  {
    hide Run, Plan, UndoFrom, ValidSecret, UndoneSoFar;
    if j == 0 {
      NothingUndoneYet(s, w0, back, fates, from);
    } else {
      hide UndoTrace, Unanswered;
      UndoProceeds(s, w0, fates, from, j - 1, back);
      OneMoreTraced(s, w0, fates, from, j - 1, back);
    }
  }

  lemma UndoStepIs(s: Secret, r: State, f: Fate)
    requires |s.envFiles| > 0 && r.local.phase.Undoing? && r.local.phase.j < |Plan(s.kind, r.local.journal)|
    ensures var l, j := r.local, r.local.phase.j;
            Step(s, r, f).local
            == AfterUndo(s, l, j, UndoAction(s, l, r.world, Plan(s.kind, l.journal)[j], f).0)
  {
    hide UndoAction, Plan, ReadStep, GenerateStep, ApplyStep, VerifyStep, WriteStep, RestartStep, RecordStep;
  }

  // ---------------------------------------------------------------- how it ends

  /** The length of the undo, from where the rotation failed. */
  lemma UndoLength(s: Secret, w0: World, fates: seq<Fate>, m: nat, l: Local)
    requires ValidSecret(s) && JournalInv(s, w0, l) && TurnedBack(s, fates, m, l)
    requires 3 <= m < FirstWrite(s) + |s.envFiles| + 1
    ensures |Plan(s.kind, l.journal)| == UndoCalls(s, m)
  {
    hide Lookup, ResolveAdminPassword, FileActions, ValidKey;
    TurnedBackStage(s, w0, fates, m, l);
    if m == 3 {
      NoPlanYet(s.kind, l.journal);
    } else {
      hide TurnedBack, JournalInv;
      PlanAt(s.kind, l.journal);
    }
  }

  lemma TurnedBackStage(s: Secret, w0: World, fates: seq<Fate>, m: nat, l: Local)
    requires |s.envFiles| > 0 && JournalInv(s, w0, l) && TurnedBack(s, fates, m, l)
    requires 3 <= m < FirstWrite(s) + |s.envFiles| + 1
    ensures var j := l.journal;
            && |j.written| == WrittenBefore(s, m)
            && (m == 3 ==> Rank(j.step) < Rank(Generated))
            && (m > 3 ==> AllBackedUp(j) && Rank(j.step) >= Rank(Generated))
            && |RestartActions(j)| == (if CauseAt(s, m) == RestartFailed then 1 else 0)
            && (m > 3 ==> |CredentialActions(s.kind, j)| == if HasBackingService(s.kind) && m > 4 then 1 else 0)
  {
    hide Lookup, ResolveAdminPassword, Plan;
  }

  /** A rotation whose call m was not answered, with the fates that follow. */
  ghost predicate EndsBadly(s: Secret, w0: World, fates: seq<Fate>, m: nat, r: State)
    requires |s.envFiles| > 0 && m + 1 + UndoCalls(s, m) < |fates|
  {
    var from, n, j := m + 1, UndoCalls(s, m), r.local.journal;
    && r.local.phase == Finished(if r.local.failed == [] then RolledBack else RollbackFailed)
    && (forall k: nat :: k in r.local.failed <==> k < n && !UndoAnswered(s, w0, j, k, fates[from+k]))
    && r.world.log == if fates[from+n].ok then w0.log + [Record(s.name, false, j.step, j.previous)] else w0.log
  }

  /** A rotation ends as the first call that is not answered decides.  Before
      the generator it is a refusal.  Later it is undone for the reason that
      goes with the call, from the step reached: one action per file written by then, a restart if it
      was the restart that failed, and the credential if it had been applied;
      exactly those actions fail that are not answered in turn; and the next
      call records the failure, unless it is not answered either. */
  lemma FirstBadCallDecides(s: Secret, w0: World, fates: seq<Fate>, m: nat)
    requires ValidSecret(s) && FailsFirst(s, w0, fates, m)
    ensures var r := Run(s, w0, fates);
            if m < 3 then r.local.phase == Finished(Refused)
            else
              && r.local.cause == CauseAt(s, m) && |r.local.journal.written| == WrittenBefore(s, m)
              && r.local.journal.step == StepOnFailure(s, fates, m)
              && !Ended(r.local.phase, Success)
              && (m + 1 + UndoCalls(s, m) < |fates| ==> EndsBadly(s, w0, fates, m, r))
  {
    HasFiles(s);
    hide Run, ValidSecret, TurnedBack, FailsFirst, EndsBadly, Unanswered, UndoTrace, JournalInv, Ended;
    CallInRange(s, w0, fates, m);
    TurnsBack(s, w0, fates, m);
    var back := Run(s, w0, fates[..m+1]).local;
    if m < 3 {
      RefusedAt(s, fates, m, back);
      FinishedStays(s, w0, fates, m + 1);
    } else {
      ReachableJournal(s, w0, fates[..m+1]);
      UndoLength(s, w0, fates, m, back);
      BackAt(s, fates, m, back);
      FailureIsUndone(s, w0, fates, m, back);
    }
  }

  lemma FailureIsUndone(s: Secret, w0: World, fates: seq<Fate>, m: nat, back: Local)
    requires ValidSecret(s) && |s.envFiles| > 0 && m < |fates| && back == Run(s, w0, fates[..m+1]).local
    requires back.phase == UndoFrom(s.kind, back, 0) && back.failed == []
    requires |Plan(s.kind, back.journal)| == UndoCalls(s, m)
    ensures var l := Run(s, w0, fates).local;
            l.cause == back.cause && l.journal == back.journal && !Ended(l.phase, Success)
    ensures m + 1 + UndoCalls(s, m) < |fates| ==> EndsBadly(s, w0, fates, m, Run(s, w0, fates))
  {
    hide Run, ValidSecret, EndsBadly, Unanswered, UndoTrace, Ended, Plan, UndoFrom, UndoCalls;
    var n := UndoCalls(s, m);
    if m + 1 + n < |fates| {
      UndoProceeds(s, w0, fates, m + 1, n, back);
      UndoIsRecorded(s, w0, fates, m, back);
      FinishedStays(s, w0, fates, m + n + 2);
      NotSuccess(Run(s, w0, fates).local);
    } else {
      UndoProceeds(s, w0, fates, m + 1, |fates| - m - 1, back);
      StillUndoing(s, w0, fates, m + 1, |fates| - m - 1, back);
    }
  }

  lemma CallInRange(s: Secret, w0: World, fates: seq<Fate>, m: nat)
    requires |s.envFiles| > 0 && FailsFirst(s, w0, fates, m)
    ensures m < |fates| && m < FirstWrite(s) + |s.envFiles| + 1
  {}

  lemma RefusedAt(s: Secret, fates: seq<Fate>, m: nat, l: Local)
    requires m < 3 && TurnedBack(s, fates, m, l)
    ensures l.phase == Finished(Refused)
  {}

  lemma BackAt(s: Secret, fates: seq<Fate>, m: nat, l: Local)
    requires m >= 3 && TurnedBack(s, fates, m, l)
    ensures l.phase == UndoFrom(s.kind, l, 0) && l.failed == [] && l.cause == CauseAt(s, m)
    ensures |l.journal.written| == WrittenBefore(s, m) && l.journal.step == StepOnFailure(s, fates, m)
  {}

  lemma NotSuccess(l: Local)
    requires l.phase == Finished(RolledBack) || l.phase == Finished(RollbackFailed)
    ensures !Ended(l.phase, Success)
  {}

  lemma StillUndoing(s: Secret, w0: World, fates: seq<Fate>, from: nat, j: nat, back: Local)
    requires |s.envFiles| > 0 && from + j == |fates| && UndoTrace(s, w0, fates, from, j, back)
    ensures var l := Run(s, w0, fates).local;
            l.cause == back.cause && l.journal == back.journal && !Ended(l.phase, Success)
  {
    hide Run, Unanswered, Plan;
    assert fates[..|fates|] == fates;
  }

  lemma UndoIsRecorded(s: Secret, w0: World, fates: seq<Fate>, m: nat, back: Local)
    requires ValidSecret(s) && |s.envFiles| > 0 && m + 1 + UndoCalls(s, m) < |fates|
    requires |Plan(s.kind, back.journal)| == UndoCalls(s, m)
    requires UndoTrace(s, w0, fates, m + 1, UndoCalls(s, m), back)
    ensures var r := Run(s, w0, fates[..m+UndoCalls(s, m)+2]);
            && EndsBadly(s, w0, fates, m, r)
            && r.local.phase == Finished(if r.local.failed == [] then RolledBack else RollbackFailed)
            && r.local.cause == back.cause && r.local.journal == back.journal
  {
    hide Run, Inv, UndoAnswered, Unanswered, Plan, ValidSecret;
    var to := m + 1 + UndoCalls(s, m);
    var r := Run(s, w0, fates[..to]);
    RunKeepsInv(s, w0, fates[..to]);
    RunTake(s, w0, fates, to);
    LogSoFar(s, w0, r);
    hide ReadStep, GenerateStep, ApplyStep, VerifyStep, WriteStep, RestartStep, UndoStep, UndoCalls;
  }

  lemma LogSoFar(s: Secret, w0: World, r: State)
    requires |s.envFiles| > 0 && Inv(s, w0, r) && !r.local.phase.Finished?
    ensures r.world.log == w0.log
  {
    hide JournalInv, FilesInv, CellsInv, LoadedInv;
  }

  /** A rotation whose every call was answered, with the fate of the audit record. */
  ghost predicate EndsWell(s: Secret, w0: World, fates: seq<Fate>, r: State)
    requires Calls(s, fates) < |fates|
  {
    && r.local.phase == Finished(Success)
    && r.world.log == if fates[Calls(s, fates)].ok then w0.log + [Record(s.name, true, Done, r.local.journal.previous)]
                      else w0.log
  }

  lemma AllAnsweredEndsWell(s: Secret, w0: World, fates: seq<Fate>)
    requires ValidSecret(s) && |s.envFiles| > 0
    requires Calls(s, fates) < |fates| && AnsweredUpTo(s, w0, fates, Calls(s, fates))
    ensures EndsWell(s, w0, fates, Run(s, w0, fates))
  {
    hide Run, Inv, Answered, AnsweredUpTo, ValidSecret, EndsWell;
    var n := Calls(s, fates);
    StaysOnCourse(s, w0, fates, n);
    var r := Run(s, w0, fates[..n]);
    RunKeepsInv(s, w0, fates[..n]);
    RunTake(s, w0, fates, n);
    SuccessIsRecorded(s, w0, fates, r);
    hide Step;
    FinishedIs(s, w0, fates, Run(s, w0, fates[..n+1]));
    FinishedStays(s, w0, fates, n + 1);
  }

  lemma FinishedIs(s: Secret, w0: World, fates: seq<Fate>, r: State)
    requires Calls(s, fates) < |fates| && EndsWell(s, w0, fates, r)
    ensures r.local.phase.Finished?
  {}

  lemma SuccessIsRecorded(s: Secret, w0: World, fates: seq<Fate>, r: State)
    requires |s.envFiles| > 0 && Calls(s, fates) < |fates| && Inv(s, w0, r)
    requires OnCourse(s, w0, fates, Calls(s, fates), r.local)
    ensures EndsWell(s, w0, fates, Step(s, r, fates[Calls(s, fates)]))
  {
    hide FilesInv, CellsInv, LoadedInv, JournalFacts, Lookup, Plan, ReadStep, GenerateStep, ApplyStep, VerifyStep,
      WriteStep, RestartStep, UndoStep;
  }

  lemma {:induction false} FirstUnanswered(s: Secret, w0: World, fates: seq<Fate>, n: nat) returns (m: nat)
    requires |s.envFiles| > 0 && n <= |fates| && !AnsweredUpTo(s, w0, fates, n)
    ensures m < n && AnsweredUpTo(s, w0, fates, m) && !Answered(s, w0, fates, m)
  {
    hide Answered;
    if AnsweredUpTo(s, w0, fates, n - 1) {
      m := n - 1;
    } else {
      m := FirstUnanswered(s, w0, fates, n - 1);
    }
  }

  /** A rotation succeeds exactly when every one of its calls is answered: the
      checks, the generator, the service that changes the password and lets the
      new one in, every file, and the restart if there is anything to restart. */
  lemma SuccessExactlyWhen(s: Secret, w0: World, fates: seq<Fate>)
    requires ValidSecret(s)
    ensures |s.envFiles| > 0
    ensures Run(s, w0, fates).local.phase == Finished(Success)
            <==> Calls(s, fates) < |fates| && AnsweredUpTo(s, w0, fates, Calls(s, fates))
    ensures Calls(s, fates) < |fates| && AnsweredUpTo(s, w0, fates, Calls(s, fates)) ==>
              EndsWell(s, w0, fates, Run(s, w0, fates))
  {
    HasFiles(s);
    hide Run, Answered, AnsweredUpTo, ValidSecret, Calls, OnCourse;
    var n := Calls(s, fates);
    var made := if n < |fates| then n else |fates|;
    if !AnsweredUpTo(s, w0, fates, made) {
      var m := FirstUnanswered(s, w0, fates, made);
      FirstBadCallDecides(s, w0, fates, m);
      AnsweredPrefix(s, w0, fates, made, n);
    } else if n < |fates| {
      AllAnsweredEndsWell(s, w0, fates);
    } else {
      StaysOnCourse(s, w0, fates, |fates|);
      assert fates[..|fates|] == fates;
      OnCourseIsNotFinished(s, w0, fates, |fates|, Run(s, w0, fates).local);
    }
  }

  lemma AnsweredPrefix(s: Secret, w0: World, fates: seq<Fate>, made: nat, n: nat)
    requires |s.envFiles| > 0 && made <= n && made <= |fates| && !AnsweredUpTo(s, w0, fates, made)
    ensures n <= |fates| ==> !AnsweredUpTo(s, w0, fates, n)
  {}

  lemma OnCourseIsNotFinished(s: Secret, w0: World, fates: seq<Fate>, m: nat, l: Local)
    requires OnCourse(s, w0, fates, m, l)
    ensures !l.phase.Finished?
  {}

  /** In particular no rotation whose verification failed ends in success. */
  lemma SuccessWasVerified(s: Secret, w0: World, fates: seq<Fate>)
    requires ValidSecret(s) && HasBackingService(s.kind) && Run(s, w0, fates).local.phase == Finished(Success)
    ensures |fates| > 5 && fates[5].ok
  {
    SuccessExactlyWhen(s, w0, fates);
    hide Run, ApplyAnswered, HoldsKey;
    assert Answered(s, w0, fates, 5);
  }

  /** A failed verification turns to the undo, with everything applied so far
      on record. */
  lemma FailedVerificationIsUndone(s: Secret, r: State, f: Fate)
    requires |s.envFiles| > 0 && r.local.phase == Verifying && !f.ok
    ensures var l := Step(s, r, f).local;
            && Step(s, r, f).world == r.world
            && l.cause == VerifyFailed && l.journal == r.local.journal
            && (l.phase.Undoing? || l.phase == Recording(UndoOutcome(r.local.failed)))
  {
    hide Plan, ReadStep, GenerateStep, ApplyStep, WriteStep, RestartStep, UndoStep, RecordStep;
  }

  // ---------------------------------------------------------------- in terms of the configuration

  /** The password that the configuration and the primary file name: the
      explicit one; else the entry it points to, if there is one; else, for an
      account that changes its own, the current value; and else none. */
  ghost predicate NamesPassword(t: Target, envKey: string, doc: string, password: string)
  {
    && (t.adminPassword != "" ==> password == t.adminPassword)
    && (t.adminPassword == "" && t.adminPasswordEnv != "" ==>
          if ValidKey(TrimSpace(t.adminPasswordEnv)) && Lookup(doc, TrimSpace(t.adminPasswordEnv)).Some?
          then password == Lookup(doc, TrimSpace(t.adminPasswordEnv)).value else password == "")
    && (t.adminPassword == "" && t.adminPasswordEnv == "" && (t.targetUser == "" || t.targetUser == t.adminUser) ==>
          Lookup(doc, envKey) == Some(password))
    && (t.adminPassword == "" && t.adminPasswordEnv == "" && t.targetUser != "" && t.targetUser != t.adminUser ==>
          password == "")
  }

  lemma ResolvedAsNamed(t: Target, envKey: string, doc: string, current: string)
    requires Lookup(doc, envKey) == Some(current)
    ensures NamesPassword(t, envKey, doc, ResolveAdminPassword(t, doc, current).adminPassword)
  {
    hide Lookup, ValidKey, TrimSpace;
  }

  /** A successful rotation of a server's password, account by account: the
      configured user was let in with the password the configuration names, and
      the configured target, the same user if none is named and on Redis the
      default user, has the generated value, alone. */
  lemma SuccessByAccount(s: Secret, w0: World, fates: seq<Fate>)
    requires ValidSecret(s) && (s.kind == MySQL || s.kind == Postgres || s.kind == Redis)
    requires Run(s, w0, fates).local.phase == Finished(Success)
    ensures var t, w, redis := s.target, Run(s, w0, fates).world, s.kind == Redis;
            var connected := Account(t.address, if redis && t.adminUser == "" then "default" else t.adminUser);
            var changed := Account(t.address, if redis then "default"
                                              else if t.targetUser == "" then t.adminUser else t.targetUser);
            && s.envFiles != [] && s.envFiles[0] in w0.files && |fates| > 3
            && connected in w0.cells && changed in w0.cells
            && NamesPassword(t, s.envKey, w0.files[s.envFiles[0]], w0.cells[connected].memory)
            && w.cells == w0.cells[changed := Cell(fates[3].text, fates[3].text)]
  {
    hide Run, Inv, Lookup, Edit, ValidKey, NamesPassword, ResolveAdminPassword, AllLoaded, SameLoadsElsewhere;
    HasFiles(s);
    var r := Run(s, w0, fates);
    SuccessIsComplete(s, w0, fates);
    RunKeepsInv(s, w0, fates);
    RunKeepsConnection(s, w0, fates);
    RunKeepsNextTrace(s, w0, fates);
    ReadState(s, w0, r);
    ResolvedAsNamed(s.target, s.envKey, w0.files[Primary(s)], r.local.journal.previous);
    SuccessHasNoCause(s, w0, r.local) by { ReachableJournal(s, w0, fates); }
  }

  lemma SuccessHasNoCause(s: Secret, w0: World, l: Local)
    requires |s.envFiles| > 0 && JournalInv(s, w0, l) && l.phase == Finished(Success)
    ensures l.cause == NoCause
  {
    hide JournalFacts;
  }
}
