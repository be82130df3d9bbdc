/** What a finished rotation promises, over every fault schedule. */
module Guarantees {
  import opened Text
  import opened EnvFiles
  import opened Domain
  import opened Rotations
  import opened Saga

  // ---------------------------------------------------------------- every run ends

  /** Port calls still to come, at most. */
  function Remaining(s: Secret, l: Local): nat
  {
    var n := |s.envFiles|;
    match l.phase
    case Looking => 2 * n + 12 case Resolving => 2 * n + 11 case Reading => 2 * n + 10
    case Generating => 2 * n + 9 case Applying => 2 * n + 8 case Verifying => 2 * n + 7
    case Writing(i) => if i < n then (n - i) + n + 6 else n + 6
    case Restarting => n + 5
    case Undoing(j) => if j < |Plan(s.kind, l.journal)| then |Plan(s.kind, l.journal)| - j + 2 else 2
    case Recording(_) => 1
    case Finished(_) => 0
  }

  lemma {:induction false} FileActionsSize(written: seq<string>, backups: Files)
    ensures |FileActions(written, backups)| <= |written|
  {
    if written != [] { FileActionsSize(written[..|written|-1], backups); }
  }

  lemma PlanSize(kind: Kind, j: Journal)
    ensures |Plan(kind, j)| <= |j.written| + 2
  {
    FileActionsSize(j.written, j.backups);
  }

  lemma CompensateRemaining(s: Secret, l: Local, cause: Cause)
    ensures Remaining(s, Compensate(s, l, cause)) <= |l.journal.written| + 4
  {
    PlanSize(s.kind, l.journal);
  }

  /** The phases in which a step cannot turn to the undo. */
  predicate Quiet(phase: Phase)
  {
    phase == Looking || phase == Resolving || phase == Reading || phase == Generating || phase.Recording?
      || phase.Finished?
  }

  lemma StepMakesProgress(s: Secret, w0: World, r: State, f: Fate)
    requires |s.envFiles| > 0 && JournalInv(s, w0, r.local)
    ensures r.local.phase.Finished? ==> Step(s, r, f) == r
    ensures !r.local.phase.Finished? ==> Remaining(s, Step(s, r, f).local) < Remaining(s, r.local)
  {
    hide Step, Remaining, JournalInv;
    WrittenSize(s, w0, r.local);
    if Quiet(r.local.phase) {
      QuietProgress(s, r, f);
    } else {
      BusyProgress(s, r, f);
    }
  }

  lemma QuietProgress(s: Secret, r: State, f: Fate)
    requires |s.envFiles| > 0 && Quiet(r.local.phase)
    ensures r.local.phase.Finished? ==> Step(s, r, f) == r
    ensures !r.local.phase.Finished? ==> Remaining(s, Step(s, r, f).local) < Remaining(s, r.local)
  {
    hide Lookup, ResolveAdminPassword, Plan, ApplyStep, VerifyStep, WriteStep, RestartStep, UndoStep;
  }

  lemma BusyProgress(s: Secret, r: State, f: Fate)
    requires |s.envFiles| > 0 && !Quiet(r.local.phase) && |r.local.journal.written| <= |s.envFiles|
    ensures Remaining(s, Step(s, r, f).local) < Remaining(s, r.local)
  {
    hide Lookup, Edit, Plan, Apply, Verify, Restart, WriteFile, UndoAction, ReadStep, GenerateStep, RecordStep,
      Compensate;
    var l := r.local;
    match l.phase {
      case Applying => CompensateRemaining(s, l, ApplyFailed);
      case Verifying => CompensateRemaining(s, l, VerifyFailed);
      case Writing(_) => CompensateRemaining(s, l, WriteFailed);
      case Restarting => CompensateRemaining(s, l.(journal := WithRestarted(l.journal, l.containers)), RestartFailed);
      case Undoing(_) =>
    }
  }

  lemma WrittenSize(s: Secret, w0: World, l: Local)
    requires |s.envFiles| > 0 && JournalInv(s, w0, l)
    ensures |l.journal.written| <= |s.envFiles|
  {
    hide Lookup, ResolveAdminPassword, StageInv;
  }

  lemma {:induction false} RunMakesProgress(s: Secret, w0: World, fates: seq<Fate>)
    requires ValidSecret(s)
    ensures !Run(s, w0, fates).local.phase.Finished? ==>
              Remaining(s, Run(s, w0, fates).local) + |fates| <= 2 * |s.envFiles| + 12
  {
    hide Step, Inv, JournalInv;
    if fates != [] {
      var init := fates[..|fates|-1];
      RunMakesProgress(s, w0, init);
      ReachableJournal(s, w0, init);
      StepMakesProgress(s, w0, Run(s, w0, init), fates[|fates|-1]);
    }
  }

  lemma ReachableJournal(s: Secret, w0: World, fates: seq<Fate>)
    requires ValidSecret(s)
    ensures JournalInv(s, w0, Run(s, w0, fates).local)
  {
    hide Run, JournalInv;
    RunKeepsInv(s, w0, fates);
  }

  /** Every rotation ends, whatever fails, within a number of port calls that
      depends only on how many files there are. */
  lemma RunFinishes(s: Secret, w0: World, fates: seq<Fate>)
    requires ValidSecret(s) && |fates| >= 2 * |s.envFiles| + 12
    ensures Run(s, w0, fates).local.phase.Finished?
  {
    hide Run;
    RunMakesProgress(s, w0, fates);
    RemainingPositive(s, Run(s, w0, fates).local);
  }

  lemma RemainingPositive(s: Secret, l: Local)
    ensures Remaining(s, l) == 0 <==> l.phase.Finished?
  {
    hide Plan;
  }

  /** Once the current value has been read: where it came from, what the target
      was resolved from, and that nothing was applied before the Apply. */
  lemma ReadState(s: Secret, w0: World, r: State)
    requires |s.envFiles| > 0 && Inv(s, w0, r) && !Untouched(r.local.phase)
    ensures Primary(s) in w0.files
    ensures Lookup(w0.files[Primary(s)], s.envKey) == Some(r.local.journal.previous)
    ensures r.local.target == ResolveAdminPassword(s.target, w0.files[Primary(s)], r.local.journal.previous)
    ensures r.local.phase == Applying ==> r.world.cells == w0.cells
    ensures r.local.phase == Finished(Success) && HasBackingService(s.kind) ==> WasApplied(s, r.local.journal)
  {
    hide Lookup, Edit, ResolveAdminPassword, Plan, UndoStage, FilesInv, LoadedInv, LogInv;
  }

  // ---------------------------------------------------------------- success

  /** A nil result: every file carries the new value, the service accepts it,
      every container restarted with the new files, and nothing else changed. */
  lemma SuccessIsComplete(s: Secret, w0: World, fates: seq<Fate>)
    requires ValidSecret(s) && Run(s, w0, fates).local.phase == Finished(Success)
    ensures var r := Run(s, w0, fates); var w, next := r.world, r.local.journal.next;
            && (forall p :: p in s.envFiles ==>
                  p in w0.files && p in w.files && w.files[p] == Edit(w0.files[p], s.envKey, next))
            && (Base64Url(next) ==> forall p :: p in s.envFiles ==> Lookup(w.files[p], s.envKey) == Some(next))
            && w.files.Keys == w0.files.Keys
            && (forall p :: p in w0.files && p !in s.envFiles ==> w.files[p] == w0.files[p])
            && w.cells == (if HasBackingService(s.kind) then w0.cells[Owner(s) := Cell(next, next)] else w0.cells)
            && AllLoaded(w.loaded, r.local.containers, w.files)
            && SameLoadsElsewhere(w0.loaded, w.loaded, r.local.containers)
            && (w.log == w0.log || w.log == w0.log + [Record(s.name, true, Done, r.local.journal.previous)])
  {
    RunKeepsInv(s, w0, fates);
    var r := Run(s, w0, fates);
    SuccessfulState(s, w0, r);
    var next := r.local.journal.next;
    if Base64Url(next) {
      forall p | p in s.envFiles ensures Lookup(r.world.files[p], s.envKey) == Some(next) {
        GeneratedValueReadsBack(w0.files[p], s.envKey, next);
      }
    }
  }

  lemma SuccessfulState(s: Secret, w0: World, r: State)
    requires |s.envFiles| > 0 && Inv(s, w0, r) && r.local.phase == Finished(Success)
    ensures var w, next := r.world, r.local.journal.next;
            && (forall p :: p in s.envFiles ==> p in w0.files && Lookup(w0.files[p], s.envKey).Some?
                                                && p in w.files && w.files[p] == Edit(w0.files[p], s.envKey, next))
            && w.files.Keys == w0.files.Keys
            && (forall p :: p in w0.files && p !in s.envFiles ==> w.files[p] == w0.files[p])
            && w.cells == (if HasBackingService(s.kind) then w0.cells[Owner(s) := Cell(next, next)] else w0.cells)
            && AllLoaded(w.loaded, r.local.containers, w.files)
            && SameLoadsElsewhere(w0.loaded, w.loaded, r.local.containers)
            && (w.log == w0.log || w.log == w0.log + [Record(s.name, true, Done, r.local.journal.previous)])
  {
    hide Lookup, Edit, Plan, FilesInv, CellsInv, LoadedInv, JournalInv, AllLoaded, SameLoadsElsewhere;
    SuccessfulJournal(s, w0, r.local);
    SuccessfulFiles(s, w0, r.local, r.world);
    SuccessfulServices(s, w0, r.local, r.world);
  }

  lemma SuccessfulJournal(s: Secret, w0: World, l: Local)
    requires |s.envFiles| > 0 && JournalInv(s, w0, l) && l.phase == Finished(Success)
    ensures l.journal.written == s.envFiles && l.journal.restarted == l.containers
    ensures l.journal.step == Done && l.cause == NoCause
  {
    hide Lookup, ResolveAdminPassword, UndoStage;
  }

  lemma SuccessfulServices(s: Secret, w0: World, l: Local, w: World)
    requires l.phase == Finished(Success) && l.journal.step == Done && l.cause == NoCause
    requires l.journal.restarted == l.containers
    requires CellsInv(s, w0, l, w) && LoadedInv(s, w0, l, w)
    ensures var next := l.journal.next;
            w.cells == if HasBackingService(s.kind) then w0.cells[Owner(s) := Cell(next, next)] else w0.cells
    ensures AllLoaded(w.loaded, l.containers, w.files) && SameLoadsElsewhere(w0.loaded, w.loaded, l.containers)
  {
    hide AllLoaded, SameLoadsElsewhere, SameElsewhere, Plan;
  }

  lemma SuccessfulFiles(s: Secret, w0: World, l: Local, w: World)
    requires FilesInv(s, w0, l, w) && l.phase == Finished(Success) && l.journal.written == s.envFiles
    ensures forall p :: p in s.envFiles ==> p in w0.files && Lookup(w0.files[p], s.envKey).Some?
                                            && p in w.files && w.files[p] == Edit(w0.files[p], s.envKey, l.journal.next)
    ensures w.files.Keys == w0.files.Keys
    ensures forall p :: p in w0.files && p !in s.envFiles ==> w.files[p] == w0.files[p]
  {
    hide Lookup, Edit;
    forall p | p in s.envFiles
      ensures p in w0.files && Lookup(w0.files[p], s.envKey).Some?
              && p in w.files && w.files[p] == Edit(w0.files[p], s.envKey, l.journal.next)
    {
      var k :| 0 <= k < |s.envFiles| && s.envFiles[k] == p;
      assert l.journal.written[k] == p;
      assert p in w.files.Keys;
    }
  }

  // ---------------------------------------------------------------- refusal and rollback

  /** An error before the pipeline starts changes nothing at all. */
  lemma RefusalChangesNothing(s: Secret, w0: World, fates: seq<Fate>)
    requires ValidSecret(s) && Untouched(Run(s, w0, fates).local.phase)
    ensures Run(s, w0, fates).world == w0
  {
    hide Run, Inv;
    HasFiles(s);
    RunKeepsInv(s, w0, fates);
    UntouchedWorld(s, w0, Run(s, w0, fates));
  }

  lemma UntouchedWorld(s: Secret, w0: World, r: State)
    requires |s.envFiles| > 0 && Inv(s, w0, r) && Untouched(r.local.phase)
    ensures r.world == w0
  {
    hide Lookup, Edit, Plan;
    assert r.local.journal == EMPTY;
    hide JournalInv;
    assert r.world.files == w0.files && r.world.cells == w0.cells && r.world.loaded == w0.loaded;
  }

  /** Each undo action counts for itself: whatever else failed, a written file
      holds its old bytes exactly when its own restore worked, and otherwise
      the edit; every other file was never touched. */
  lemma EachFileIsRestoredOnItsOwn(s: Secret, w0: World, fates: seq<Fate>, k: nat)
    requires ValidSecret(s) && Run(s, w0, fates).local.phase.Finished?
    requires EndedInFailure(Run(s, w0, fates).local.phase)
    requires k < |Run(s, w0, fates).local.journal.written|
    ensures var r := Run(s, w0, fates); var p := r.local.journal.written[k];
            && k < |s.envFiles| && p == s.envFiles[k] && p in w0.files && p in r.world.files
            && r.world.files[p] == if k in r.local.failed then Edit(w0.files[p], s.envKey, r.local.journal.next)
                                   else w0.files[p]
    ensures var r := Run(s, w0, fates);
            forall p :: p in w0.files && p !in r.local.journal.written ==>
                p in r.world.files && r.world.files[p] == w0.files[p]
  {
    RunKeepsInv(s, w0, fates);
    hide Run, Edit, Lookup, ResolveAdminPassword, CellsInv, LoadedInv, LogInv, UndoStage;
    var r := Run(s, w0, fates);
    EndedPlan(s, w0, r.local);
    var p := r.local.journal.written[k];
    assert p in r.world.files.Keys;
    assert forall q :: q in w0.files <==> q in r.world.files.Keys;
  }

  lemma EndedPlan(s: Secret, w0: World, l: Local)
    requires |s.envFiles| > 0 && JournalInv(s, w0, l) && EndedInFailure(l.phase)
    ensures |l.journal.written| + |RestartActions(l.journal)| <= Attempted(s, l)
    ensures l.journal.restarted != [] ==> |RestartActions(l.journal)| == 1
    ensures WasApplied(s, l.journal) ==> |l.journal.written| + |RestartActions(l.journal)| < Attempted(s, l)
    ensures l.failed == [] <==> Ended(l.phase, RolledBack)
  {
    hide Lookup, ResolveAdminPassword, FileActions, Plan;
    EndedJournal(s, w0, l);
    if Rank(l.journal.step) >= Rank(Generated) {
      assert AllBackedUp(l.journal);
      hide JournalInv;
      PlanAt(s.kind, l.journal);
    } else {
      NoPlanYet(s.kind, l.journal);
    }
  }

  /** What the stages say about a journal at the end of an undo. */
  lemma EndedJournal(s: Secret, w0: World, l: Local)
    requires |s.envFiles| > 0 && JournalInv(s, w0, l) && EndedInFailure(l.phase)
    ensures l.failed == [] <==> Ended(l.phase, RolledBack)
    ensures l.journal.restarted != [] ==> l.journal.step == Restarted
    ensures Rank(l.journal.step) < Rank(Generated) ==> l.journal.written == []
  {
    hide Lookup, ResolveAdminPassword, JournalFacts, Plan;
  }

  lemma NoPlanYet(kind: Kind, j: Journal)
    requires Rank(j.step) < Rank(Generated)
    ensures Plan(kind, j) == [] && RestartActions(j) == []
  {}

  /** `ErrRotationFailed` without `ErrRollbackFailed`: every file holds its
      bytes again, every container that was restarted has loaded them again,
      and an applied credential has been replaced by the value the primary
      file holds. */
  lemma CleanRollback(s: Secret, w0: World, fates: seq<Fate>)
    requires ValidSecret(s) && Run(s, w0, fates).local.phase == Finished(RolledBack)
    ensures var r := Run(s, w0, fates);
            && r.world.files == w0.files
            && SameLoadsElsewhere(w0.loaded, r.world.loaded, r.local.journal.restarted)
            && AllLoaded(r.world.loaded, r.local.journal.restarted, w0.files)
            && SameElsewhere(w0.cells, r.world.cells, Owner(s))
    ensures var r := Run(s, w0, fates);
            if WasApplied(s, r.local.journal) then
              && Primary(s) in w0.files && Lookup(w0.files[Primary(s)], s.envKey) == Some(r.local.journal.previous)
              && r.world.cells == w0.cells[Owner(s) := Cell(r.local.journal.previous, r.local.journal.previous)]
            else r.local.cause != ApplyFailed ==> r.world.cells == w0.cells
  {
    RunKeepsInv(s, w0, fates);
    hide Run;
    CleanState(s, w0, Run(s, w0, fates));
  }

  lemma CleanState(s: Secret, w0: World, r: State)
    requires |s.envFiles| > 0 && Inv(s, w0, r) && r.local.phase == Finished(RolledBack)
    ensures && r.world.files == w0.files
            && SameLoadsElsewhere(w0.loaded, r.world.loaded, r.local.journal.restarted)
            && AllLoaded(r.world.loaded, r.local.journal.restarted, w0.files)
            && SameElsewhere(w0.cells, r.world.cells, Owner(s))
    ensures Primary(s) in w0.files && Lookup(w0.files[Primary(s)], s.envKey) == Some(r.local.journal.previous)
    ensures if WasApplied(s, r.local.journal)
            then r.world.cells == w0.cells[Owner(s) := Cell(r.local.journal.previous, r.local.journal.previous)]
            else r.local.cause != ApplyFailed ==> r.world.cells == w0.cells
  {
    hide Lookup, Edit, ResolveAdminPassword, Plan, UndoStage, FilesInv, CellsInv, LoadedInv;
    EndedPlan(s, w0, r.local);
    CleanFiles(s, w0, r.local, r.world);
    CleanServices(s, w0, r.local, r.world);
  }

  lemma CleanFiles(s: Secret, w0: World, l: Local, w: World)
    requires FilesInv(s, w0, l, w) && l.failed == [] && |l.journal.written| <= Attempted(s, l)
    ensures w.files == w0.files
  {
    hide Lookup, Edit, Attempted;
    forall p | p in w0.files ensures p in w.files && w.files[p] == w0.files[p] {
      assert p in w.files.Keys;
      if p in l.journal.written {
        var k :| 0 <= k < |l.journal.written| && l.journal.written[k] == p;
        assert Undone(s, l, k);
      }
    }
    assert w.files == w0.files;
  }

  lemma CleanServices(s: Secret, w0: World, l: Local, w: World)
    requires CellsInv(s, w0, l, w) && LoadedInv(s, w0, l, w) && l.failed == [] && w.files == w0.files
    requires l.journal.restarted != [] ==> |l.journal.written| < Attempted(s, l)
    requires WasApplied(s, l.journal) ==> CredentialAt(l.journal) < Attempted(s, l)
    ensures SameLoadsElsewhere(w0.loaded, w.loaded, l.journal.restarted)
    ensures AllLoaded(w.loaded, l.journal.restarted, w0.files)
    ensures SameElsewhere(w0.cells, w.cells, Owner(s))
    ensures if WasApplied(s, l.journal)
            then w.cells == w0.cells[Owner(s) := Cell(l.journal.previous, l.journal.previous)]
            else l.cause != ApplyFailed ==> w.cells == w0.cells
  {
    hide Attempted;
  }

  // ---------------------------------------------------------------- exactly when a clean rollback restores everything

  /** The first four port calls lead up to the Apply; when it fails, the
      service is left as that fifth call left it. */
  ghost predicate ApplyTrace(s: Secret, w0: World, r: State, fates: seq<Fate>)
  {
    match r.local.phase
    case Looking => |fates| == 0
    case Resolving => |fates| == 1
    case Reading => |fates| == 2
    case Generating => |fates| == 3
    case Applying => |fates| == 4
    case _ => r.local.cause == ApplyFailed ==>
                |fates| > 4 && Apply(s.kind, r.local.target, w0.cells, r.local.journal.next, fates[4])
                  == (false, r.world.cells)
  }

  lemma StepKeepsApplyTrace(s: Secret, w0: World, r: State, fates: seq<Fate>, f: Fate)
    requires |s.envFiles| > 0 && JournalInv(s, w0, r.local) && CellsInv(s, w0, r.local, r.world)
    requires ApplyTrace(s, w0, r, fates)
    ensures ApplyTrace(s, w0, Step(s, r, f), fates + [f])
  {
    hide Step, JournalInv, CellsInv, ApplyTrace;
    if r.local.cause == ApplyFailed {
      ApplyFailedHasNoPlan(s, w0, r.local);
      DoneKeepsApplyTrace(s, w0, r, fates, f);
    } else {
      PhaseHasNoFailure(s, w0, r.local);
      if r.local.phase == Applying {
        UnappliedCells(s, w0, r);
        ApplyStartsTrace(s, w0, r, fates, f);
      } else {
        OthersKeepApplyTrace(s, w0, r, fates, f);
      }
    }
  }

  lemma PhaseHasNoFailure(s: Secret, w0: World, l: Local)
    requires |s.envFiles| > 0 && JournalInv(s, w0, l)
    ensures l.phase.Undoing? || Quiet(l.phase) || l.cause == NoCause
  {
    hide Lookup, ResolveAdminPassword, JournalFacts, UndoStage, Plan, EndStage;
  }

  lemma UnappliedCells(s: Secret, w0: World, r: State)
    requires |s.envFiles| > 0 && JournalInv(s, w0, r.local) && CellsInv(s, w0, r.local, r.world)
    requires r.local.phase == Applying
    ensures r.world.cells == w0.cells
  {
    hide Lookup, JournalFacts;
  }

  lemma DoneKeepsApplyTrace(s: Secret, w0: World, r: State, fates: seq<Fate>, f: Fate)
    requires |s.envFiles| > 0 && (r.local.phase.Recording? || r.local.phase.Finished?) && ApplyTrace(s, w0, r, fates)
    ensures ApplyTrace(s, w0, Step(s, r, f), fates + [f])
  {
    hide Apply, ReadStep, GenerateStep, ApplyStep, VerifyStep, WriteStep, RestartStep, UndoStep;
  }

  lemma ApplyStartsTrace(s: Secret, w0: World, r: State, fates: seq<Fate>, f: Fate)
    requires |s.envFiles| > 0 && r.local.phase == Applying && r.local.cause == NoCause && r.world.cells == w0.cells
    requires ApplyTrace(s, w0, r, fates)
    ensures ApplyTrace(s, w0, Step(s, r, f), fates + [f])
  {
    hide Apply, Plan, ReadStep, GenerateStep, VerifyStep, WriteStep, RestartStep, UndoStep, RecordStep;
  }

  lemma OthersKeepApplyTrace(s: Secret, w0: World, r: State, fates: seq<Fate>, f: Fate)
    requires |s.envFiles| > 0 && r.local.phase != Applying && r.local.cause != ApplyFailed
    requires ApplyTrace(s, w0, r, fates)
    ensures ApplyTrace(s, w0, Step(s, r, f), fates + [f])
  {
    hide Lookup, Edit, ResolveAdminPassword, Plan, Apply, Verify, Restart, WriteFile, UndoAction, ApplyStep,
      WithFileWritten, WithRestarted, WithGenerated, WithCurrent;
  }

  lemma ApplyFailedHasNoPlan(s: Secret, w0: World, l: Local)
    requires |s.envFiles| > 0 && JournalInv(s, w0, l) && l.cause == ApplyFailed
    ensures Plan(s.kind, l.journal) == []
    ensures l.phase.Recording? || l.phase.Finished?
  {
    hide Lookup, ResolveAdminPassword, JournalFacts, FileActions;
    NoFileActions(l.journal.backups);
  }

  lemma NoFileActions(backups: Files)
    ensures FileActions([], backups) == []
  {}

  lemma {:induction false} RunKeepsApplyTrace(s: Secret, w0: World, fates: seq<Fate>)
    requires ValidSecret(s)
    ensures ApplyTrace(s, w0, Run(s, w0, fates), fates)
  {
    hide Step, JournalInv, CellsInv, FilesInv, LoadedInv, LogInv;
    if fates != [] {
      var init, f := fates[..|fates|-1], fates[|fates|-1];
      RunKeepsApplyTrace(s, w0, init);
      RunKeepsInv(s, w0, init);
      StepKeepsApplyTrace(s, w0, Run(s, w0, init), init, f);
      assert fates == init + [f];
    }
  }

  /** The new value is what the generator answered, as the fourth call. */
  ghost predicate NextTrace(l: Local, fates: seq<Fate>)
  {
    Untouched(l.phase) || l.phase == Generating || l.cause == GenerateFailed
      || (|fates| > 3 && l.journal.next == fates[3].text)
  }

  lemma StepKeepsNextTrace(s: Secret, w0: World, r: State, fates: seq<Fate>, f: Fate)
    requires |s.envFiles| > 0 && ApplyTrace(s, w0, r, fates) && NextTrace(r.local, fates) && JournalInv(s, w0, r.local)
    ensures NextTrace(Step(s, r, f).local, fates + [f])
  {
    hide Lookup, Edit, ResolveAdminPassword, Apply, Verify, Restore, Restart, WriteFile, RestoreFile, JournalFacts,
      UndoStage, Plan, UndoFrom;
  }

  lemma {:induction false} RunKeepsNextTrace(s: Secret, w0: World, fates: seq<Fate>)
    requires ValidSecret(s)
    ensures NextTrace(Run(s, w0, fates).local, fates)
  {
    hide Step, ApplyTrace, JournalInv;
    if fates != [] {
      var init, f := fates[..|fates|-1], fates[|fates|-1];
      RunKeepsNextTrace(s, w0, init);
      RunKeepsApplyTrace(s, w0, init);
      ReachableJournal(s, w0, init);
      StepKeepsNextTrace(s, w0, Run(s, w0, init), init, f);
      assert fates == init + [f];
    }
  }

  /** The service and the files agree on the current value, on both copies. */
  ghost predicate InForce(s: Secret, w: World)
    requires |s.envFiles| > 0
  {
    && Primary(s) in w.files && Lookup(w.files[Primary(s)], s.envKey).Some?
    && Owner(s) in w.cells
    && var value := Lookup(w.files[Primary(s)], s.envKey).value;
       w.cells[Owner(s)] == Cell(value, value)
  }

  /** Exactly when a clean rollback leaves the service as it was.  If the new
      credential had been applied, it is when the primary file held the value
      in force; if the Apply failed, it is when that call left nothing behind. */
  lemma ServiceRestoredExactlyWhen(s: Secret, w0: World, fates: seq<Fate>)
    requires ValidSecret(s) && Run(s, w0, fates).local.phase == Finished(RolledBack)
    ensures var r := Run(s, w0, fates);
            r.world.cells == w0.cells <==>
              if WasApplied(s, r.local.journal) then InForce(s, w0)
              else r.local.cause == ApplyFailed ==>
                     |fates| > 4 && !LeavesStray(s.kind, r.local.target, w0.cells, r.local.journal.next, fates[4])
  {
    RunKeepsInv(s, w0, fates);
    RunKeepsApplyTrace(s, w0, fates);
    hide Run;
    var r := Run(s, w0, fates);
    CleanState(s, w0, r);
    hide Lookup, Inv, Apply;
    var owner, previous := Owner(s), r.local.journal.previous;
    if WasApplied(s, r.local.journal) {
      assert owner in r.world.cells && r.world.cells[owner] == Cell(previous, previous);
      if InForce(s, w0) {
        assert w0.cells[owner := Cell(previous, previous)] == w0.cells;
      }
    } else if r.local.cause == ApplyFailed {
      FailedApplyEffect(s.kind, r.local.target, w0.cells, r.local.journal.next, fates[4]);
    }
  }

  /** Exactly when a clean rollback leaves the containers as they were: when
      each one that was restarted had loaded the files as they were. */
  lemma ContainersRestoredExactlyWhen(s: Secret, w0: World, fates: seq<Fate>)
    requires ValidSecret(s) && Run(s, w0, fates).local.phase == Finished(RolledBack)
    ensures var r := Run(s, w0, fates);
            r.world.loaded == w0.loaded <==> AllLoaded(w0.loaded, r.local.journal.restarted, w0.files)
  {
    RunKeepsInv(s, w0, fates);
    hide Run;
    var r := Run(s, w0, fates);
    CleanState(s, w0, r);
    hide Inv, SameLoadsElsewhere, AllLoaded;
    EqualLoads(w0.loaded, r.world.loaded, r.local.journal.restarted, w0.files);
  }

  lemma EqualLoads(before: Loads, after: Loads, names: seq<string>, files: Files)
    requires SameLoadsElsewhere(before, after, names) && AllLoaded(after, names, files)
    ensures after == before <==> AllLoaded(before, names, files)
  {
    if AllLoaded(before, names, files) {
      forall c ensures (c in before <==> c in after) && (c in before ==> before[c] == after[c]) {
        if c in names {}
      }
      assert after == before;
    }
  }

  // ---------------------------------------------------------------- all or nothing

  /** Nothing was left behind by a failing Apply. */
  ghost predicate NoStray(s: Secret, w0: World, fates: seq<Fate>)
    requires |s.envFiles| > 0
  {
    var r := Run(s, w0, fates);
    r.local.cause == ApplyFailed ==>
      |fates| > 4 && !LeavesStray(s.kind, r.local.target, w0.cells, r.local.journal.next, fates[4])
  }

  /** The rotation took effect everywhere. */
  ghost predicate Complete(s: Secret, w0: World, r: State)
  {
    var w, next := r.world, r.local.journal.next;
    && w.files.Keys == w0.files.Keys
    && (forall p :: p in w0.files ==>
          p in w.files && w.files[p] == if p in s.envFiles then Edit(w0.files[p], s.envKey, next) else w0.files[p])
    && w.cells == (if HasBackingService(s.kind) then w0.cells[Owner(s) := Cell(next, next)] else w0.cells)
    && AllLoaded(w.loaded, r.local.containers, w.files)
  }

  /** All or nothing, over every fault schedule and any number of files, for a
      rotation that starts with service, files and containers in step: success
      means everything carries the new value; a refusal changed nothing; a
      rollback put files and containers back, and the service exactly when a
      failing Apply left nothing behind; anything else is reported as a failed
      rollback, which names the undo actions that failed and leaves each file,
      the service and the containers as its own action did. */
  lemma AllOrNothing(s: Secret, w0: World, fates: seq<Fate>)
    requires ValidSecret(s) && Run(s, w0, fates).local.phase.Finished?
    requires HasBackingService(s.kind) ==> InForce(s, w0)
    requires AllLoaded(w0.loaded, Run(s, w0, fates).local.containers, w0.files)
    ensures var r := Run(s, w0, fates); var w := r.world;
            match r.local.phase.outcome
            case Success => Complete(s, w0, r)
            case Refused => w == w0
            case RolledBack => w.files == w0.files && w.loaded == w0.loaded
              && (w.cells == w0.cells <==> NoStray(s, w0, fates))
            case RollbackFailed => PartlyUndone(s, w0, r)
  {
    hide Run, Inv, Complete, PartlyUndone, InForce, AllLoaded, NoStray, ValidSecret;
    HasFiles(s);
    match Run(s, w0, fates).local.phase.outcome {
      case Success => SuccessMeansComplete(s, w0, fates);
      case Refused => RefusalChangesNothing(s, w0, fates);
      case RolledBack => RolledBackToTheStart(s, w0, fates);
      case RollbackFailed => FailedRollbackIsPartlyUndone(s, w0, fates);
    }
  }

  lemma SuccessMeansComplete(s: Secret, w0: World, fates: seq<Fate>)
    requires ValidSecret(s) && Run(s, w0, fates).local.phase == Finished(Success)
    ensures Complete(s, w0, Run(s, w0, fates))
  {
    hide Run, Lookup, Edit, AllLoaded, SameLoadsElsewhere, ValidSecret;
    HasFiles(s);
    SuccessIsComplete(s, w0, fates);
    assert forall p :: p in w0.files <==> p in Run(s, w0, fates).world.files.Keys;
  }

  lemma RolledBackToTheStart(s: Secret, w0: World, fates: seq<Fate>)
    requires ValidSecret(s) && Run(s, w0, fates).local.phase == Finished(RolledBack)
    requires HasBackingService(s.kind) ==> InForce(s, w0)
    requires AllLoaded(w0.loaded, Run(s, w0, fates).local.containers, w0.files)
    ensures Run(s, w0, fates).world.files == w0.files
    ensures Run(s, w0, fates).world.loaded == w0.loaded
    ensures Run(s, w0, fates).world.cells == w0.cells <==> NoStray(s, w0, fates)
  {
    hide Run, Inv, Lookup, InForce, LeavesStray, ValidSecret, SameLoadsElsewhere, SameElsewhere;
    RunKeepsInv(s, w0, fates);
    CleanRollback(s, w0, fates);
    HasFiles(s);
    RestartedAreContainers(s, w0, Run(s, w0, fates));
    ServiceRestoredExactlyWhen(s, w0, fates);
    ContainersRestoredExactlyWhen(s, w0, fates);
  }

  lemma HasFiles(s: Secret)
    requires ValidSecret(s)
    ensures |s.envFiles| > 0
  {}

  lemma RestartedAreContainers(s: Secret, w0: World, r: State)
    requires |s.envFiles| > 0 && Inv(s, w0, r) && r.local.phase == Finished(RolledBack)
    ensures r.local.journal.restarted == [] || r.local.journal.restarted == r.local.containers
    ensures WasApplied(s, r.local.journal) ==> r.local.cause != ApplyFailed
  {
    hide Plan, JournalFacts, FilesInv, CellsInv, LoadedInv, LogInv;
  }

  // ---------------------------------------------------------------- after a failed rollback

  /** The files once every env file has been written. */
  ghost function AllEdited(s: Secret, files: Files, next: string): Files
  {
    map p | p in files :: if p in s.envFiles then Edit(files[p], s.envKey, next) else files[p]
  }

  ghost predicate SameLoad(loaded: Loads, loaded': Loads, c: string)
  {
    (c in loaded <==> c in loaded') && (c in loaded ==> loaded'[c] == loaded[c])
  }

  /** What each container the pipeline restarted has loaded: what it had before,
      the edited files or, once the undo has come to restart it, the files as
      they are. */
  ghost predicate LoadsInv(s: Secret, w0: World, l: Local, w: World)
  {
    forall c :: c in l.journal.restarted ==>
      || SameLoad(w0.loaded, w.loaded, c)
      || (c in w.loaded && w.loaded[c] == AllEdited(s, w0.files, l.journal.next))
      || (c in w.loaded && w.loaded[c] == w.files && Attempted(s, l) > |l.journal.written|)
  }

  lemma RestartLoads(loaded: Loads, files: Files, names: seq<string>, f: Fate, c: string)
    ensures var loaded' := Restart(loaded, files, names, f).1;
            SameLoad(loaded, loaded', c) || (c in loaded' && loaded'[c] == files)
  {
    var n := if f.ok || f.reached >= |names| then |names| else f.reached;
    LoadFirstEffect(loaded, files, names, n);
  }

  lemma AllWereEdited(s: Secret, w0: World, l: Local, w: World)
    requires FilesInv(s, w0, l, w) && l.journal.written == s.envFiles && Attempted(s, l) == 0
    ensures w.files == AllEdited(s, w0.files, l.journal.next)
  {
    hide Lookup, Edit, Attempted;
    forall p | p in w0.files ensures p in w.files && w.files[p] == AllEdited(s, w0.files, l.journal.next)[p] {
      assert p in w.files.Keys;
      if p in s.envFiles {
        var k :| 0 <= k < |s.envFiles| && s.envFiles[k] == p;
        assert l.journal.written[k] == p;
      }
    }
  }

  lemma RestartKeepsLoadsInv(s: Secret, w0: World, r: State, f: Fate)
    requires |s.envFiles| > 0 && Inv(s, w0, r) && r.local.phase == Restarting
    ensures LoadsInv(s, w0, Step(s, r, f).local, Step(s, r, f).world)
  {
    hide Plan, Inv, Step, Restart, AllEdited, SameLoad, Attempted;
    var l, w := r.local, r.world;
    BeforeTheRestart(s, w0, r);
    TheRestart(s, r, f);
    forall c ensures
      var loaded' := Restart(w.loaded, w.files, l.containers, f).1;
      SameLoad(w0.loaded, loaded', c) || (c in loaded' && loaded'[c] == w.files)
    {
      RestartLoads(w.loaded, w.files, l.containers, f, c);
      if SameLoad(w.loaded, Restart(w.loaded, w.files, l.containers, f).1, c) {
        SameLoadAgain(w0.loaded, w.loaded, Restart(w.loaded, w.files, l.containers, f).1, c);
      }
    }
  }

  lemma TheRestart(s: Secret, r: State, f: Fate)
    requires |s.envFiles| > 0 && r.local.phase == Restarting
    ensures var r' := Step(s, r, f);
            && r'.world.loaded == Restart(r.world.loaded, r.world.files, r.local.containers, f).1
            && r'.local.journal.next == r.local.journal.next && r'.local.journal.restarted == r.local.containers
  {
    hide Restart, Plan, UndoFrom, ReadStep, GenerateStep, ApplyStep, VerifyStep, WriteStep, UndoStep, RecordStep;
  }

  lemma SameLoadAgain(loaded: Loads, loaded': Loads, loaded'': Loads, c: string)
    requires SameLoad(loaded, loaded', c) && SameLoad(loaded', loaded'', c)
    ensures SameLoad(loaded, loaded'', c)
  {}

  lemma BeforeTheRestart(s: Secret, w0: World, r: State)
    requires |s.envFiles| > 0 && Inv(s, w0, r) && r.local.phase == Restarting
    ensures r.world.files == AllEdited(s, w0.files, r.local.journal.next)
    ensures forall c :: SameLoad(w0.loaded, r.world.loaded, c)
  {
    hide Lookup, Edit, ResolveAdminPassword, FilesInv, CellsInv, LogInv, UndoStage, EndStage, Plan, AllEdited;
    AllWereEdited(s, w0, r.local, r.world);
  }

  lemma UndoKeepsLoadsInv(s: Secret, w0: World, r: State, f: Fate)
    requires ValidSecret(s) && Inv(s, w0, r) && r.local.phase.Undoing? && LoadsInv(s, w0, r.local, r.world)
    ensures LoadsInv(s, w0, Step(s, r, f).local, Step(s, r, f).world)
  {
    hide JournalInv, FilesInv, CellsInv, LoadedInv, LogInv, Restart, RestoreFile, Restore, Plan, AllEdited, ValidKey;
    var l, w, j := r.local, r.world, r.local.phase.j;
    UndoPosition(s, w0, l, j);
    var (ok, w') := UndoAction(s, l, w, Plan(s.kind, l.journal)[j], f);
    UndoAttempts(s, l, j, ok);
    forall c ensures
      var loaded' := Restart(w.loaded, w.files, l.journal.restarted, f).1;
      SameLoad(w.loaded, loaded', c) || (c in loaded' && loaded'[c] == w.files)
    {
      RestartLoads(w.loaded, w.files, l.journal.restarted, f, c);
    }
    hide Attempted, UndoFrom;
  }

  lemma OthersKeepLoadsInv(s: Secret, w0: World, r: State, f: Fate)
    requires |s.envFiles| > 0 && Inv(s, w0, r) && r.local.phase != Restarting && !r.local.phase.Undoing?
    requires LoadsInv(s, w0, r.local, r.world)
    ensures LoadsInv(s, w0, Step(s, r, f).local, Step(s, r, f).world)
  {
    hide Lookup, Edit, ResolveAdminPassword, Plan, FilesInv, CellsInv, LogInv, LoadedInv, JournalFacts, Apply, Verify,
      WriteFile, AllEdited;
  }

  lemma {:induction false} RunKeepsLoadsInv(s: Secret, w0: World, fates: seq<Fate>)
    requires ValidSecret(s)
    ensures LoadsInv(s, w0, Run(s, w0, fates).local, Run(s, w0, fates).world)
  {
    hide Step, Inv, LoadsInv, ValidSecret;
    HasFiles(s);
    if fates == [] {
      StartLoads(s, w0);
    } else {
      var init, f := fates[..|fates|-1], fates[|fates|-1];
      RunKeepsLoadsInv(s, w0, init);
      RunKeepsInv(s, w0, init);
      var r := Run(s, w0, init);
      if r.local.phase == Restarting {
        RestartKeepsLoadsInv(s, w0, r, f);
      } else if r.local.phase.Undoing? {
        UndoKeepsLoadsInv(s, w0, r, f);
      } else {
        OthersKeepLoadsInv(s, w0, r, f);
      }
    }
  }

  lemma StartLoads(s: Secret, w0: World)
    ensures LoadsInv(s, w0, Start(s), w0)
  {}

  /** The world after a failed rollback, by what the undo actions did: each
      file, the service and the restarted containers for themselves. */
  ghost predicate PartlyUndone(s: Secret, w0: World, r: State)
  {
    var l, w, j := r.local, r.world, r.local.journal;
    && l.failed != []
    && w.files.Keys == w0.files.Keys
    && (forall p :: p in w0.files && p !in j.written ==> p in w.files && w.files[p] == w0.files[p])
    && (forall k :: 0 <= k < |j.written| ==>
          var p := j.written[k];
          p in w0.files && p in w.files
          && w.files[p] == if k in l.failed then Edit(w0.files[p], s.envKey, j.next) else w0.files[p])
    && (if !WasApplied(s, j) then w.cells == w0.cells
        else if CredentialAt(j) in l.failed
        then RestoreFailedFrom(s.kind, w0.cells[Owner(s) := Cell(j.next, j.next)], Owner(s), j.previous, w.cells)
        else w.cells == w0.cells[Owner(s) := Cell(j.previous, j.previous)])
    && SameLoadsElsewhere(w0.loaded, w.loaded, j.restarted)
    && (if |j.written| in l.failed && j.restarted != []
        then forall c :: c in j.restarted ==>
               || SameLoad(w0.loaded, w.loaded, c)
               || (c in w.loaded && (w.loaded[c] == AllEdited(s, w0.files, j.next) || w.loaded[c] == w.files))
        else AllLoaded(w.loaded, j.restarted, w.files))
  }

  lemma FailedRollbackIsPartlyUndone(s: Secret, w0: World, fates: seq<Fate>)
    requires ValidSecret(s) && Run(s, w0, fates).local.phase == Finished(RollbackFailed)
    ensures PartlyUndone(s, w0, Run(s, w0, fates))
  {
    hide Run, ValidSecret, LoadsInv, SameLoad, AllEdited, PartlyUndone, Inv;
    HasFiles(s);
    RunKeepsInv(s, w0, fates);
    RunKeepsLoadsInv(s, w0, fates);
    PartlyUndoneState(s, w0, Run(s, w0, fates));
  }

  lemma PartlyUndoneState(s: Secret, w0: World, r: State)
    requires |s.envFiles| > 0 && Inv(s, w0, r) && LoadsInv(s, w0, r.local, r.world)
    requires r.local.phase == Finished(RollbackFailed)
    ensures PartlyUndone(s, w0, r)
  {
    hide Lookup, Edit, Plan, AllEdited, RestoreFailedFrom, SameLoad, SameElsewhere, SameLoadsElsewhere, AllLoaded,
      JournalInv, FilesInv, CellsInv, LoadedInv, LoadsInv, Attempted, WasApplied, CredentialAt, RestartActions;
    UndoneFarEnough(s, w0, r.local);
    PartlyUndoneFiles(s, w0, r.local, r.world);
    PartlyUndoneServices(s, w0, r.local, r.world);
  }

  /** Every action of the plan has been attempted. */
  lemma UndoneFarEnough(s: Secret, w0: World, l: Local)
    requires |s.envFiles| > 0 && JournalInv(s, w0, l) && l.phase == Finished(RollbackFailed)
    ensures l.failed != [] && l.cause != ApplyFailed && |l.journal.written| <= Attempted(s, l)
    ensures l.journal.restarted != [] ==> |l.journal.written| < Attempted(s, l)
    ensures WasApplied(s, l.journal) ==> CredentialAt(l.journal) < Attempted(s, l)
  {
    hide JournalInv, Plan, Attempted, WasApplied, RestartActions;
    EndedPlan(s, w0, l);
    FailedMeansPlanned(s, w0, l);
  }

  lemma PartlyUndoneServices(s: Secret, w0: World, l: Local, w: World)
    requires CellsInv(s, w0, l, w) && LoadedInv(s, w0, l, w) && LoadsInv(s, w0, l, w) && l.cause != ApplyFailed
    requires l.journal.restarted != [] ==> |l.journal.written| < Attempted(s, l)
    requires WasApplied(s, l.journal) ==> CredentialAt(l.journal) < Attempted(s, l)
    ensures if !WasApplied(s, l.journal) then w.cells == w0.cells
            else if CredentialAt(l.journal) in l.failed
            then RestoreFailedFrom(s.kind, w0.cells[Owner(s) := Cell(l.journal.next, l.journal.next)], Owner(s),
                                   l.journal.previous, w.cells)
            else w.cells == w0.cells[Owner(s) := Cell(l.journal.previous, l.journal.previous)]
    ensures SameLoadsElsewhere(w0.loaded, w.loaded, l.journal.restarted)
    ensures if |l.journal.written| in l.failed && l.journal.restarted != []
            then forall c :: c in l.journal.restarted ==>
                   || SameLoad(w0.loaded, w.loaded, c)
                   || (c in w.loaded && (w.loaded[c] == AllEdited(s, w0.files, l.journal.next)
                                         || w.loaded[c] == w.files))
            else AllLoaded(w.loaded, l.journal.restarted, w.files)
  {
    hide Attempted, RestoreFailedFrom, AllEdited, SameLoad, SameLoadsElsewhere, SameElsewhere, CredentialAt, WasApplied;
  }

  lemma FailedMeansPlanned(s: Secret, w0: World, l: Local)
    requires |s.envFiles| > 0 && JournalInv(s, w0, l) && l.phase == Finished(RollbackFailed)
    ensures l.failed != [] && l.cause != ApplyFailed
  {
    hide Lookup, JournalFacts, Plan, UndoStage, StageInv, ResolveAdminPassword;
    EndedPlan(s, w0, l);
    if l.cause == ApplyFailed { ApplyFailedHasNoPlan(s, w0, l); }
    assert l.failed != [] && l.failed[0] in l.failed;
  }

  lemma PartlyUndoneFiles(s: Secret, w0: World, l: Local, w: World)
    requires FilesInv(s, w0, l, w) && |l.journal.written| <= Attempted(s, l)
    ensures w.files.Keys == w0.files.Keys
    ensures forall p :: p in w0.files && p !in l.journal.written ==> p in w.files && w.files[p] == w0.files[p]
    ensures forall k :: 0 <= k < |l.journal.written| ==>
              var p := l.journal.written[k];
              p in w0.files && p in w.files
              && w.files[p] == if k in l.failed then Edit(w0.files[p], s.envKey, l.journal.next) else w0.files[p]
  {
    hide Lookup, Edit, Attempted;
    assert forall p :: p in w0.files <==> p in w.files.Keys;
  }

  // ---------------------------------------------------------------- a rollback without faults

  /** A credential was applied over a connection the service accepted, and on
      Redis the user that was connected as could then log in with it. */
  ghost predicate AppliedOverConnection(s: Secret, w0: World, l: Local)
  {
    var owner, admin, next := Owner(s), AdminAccount(s.kind, s.target), l.journal.next;
    WasApplied(s, l.journal) && s.kind != Command ==>
      && owner in w0.cells && Accepts(w0.cells, admin, l.target.adminPassword)
      && (s.kind == Redis && l.phase != Verifying && l.cause != VerifyFailed ==>
            Accepts(w0.cells[owner := Cell(next, next)], admin, next))
  }

  lemma StepKeepsConnection(s: Secret, w0: World, r: State, f: Fate)
    requires |s.envFiles| > 0 && JournalInv(s, w0, r.local) && CellsInv(s, w0, r.local, r.world)
    requires AppliedOverConnection(s, w0, r.local)
    ensures AppliedOverConnection(s, w0, Step(s, r, f).local)
  {
    hide Step, JournalInv, CellsInv, AppliedOverConnection;
    var l := r.local;
    if l.phase == Applying {
      ApplyConnects(s, w0, r, f);
    } else if l.phase == Verifying {
      VerifyConnects(s, w0, r, f);
    } else {
      OthersKeepConnection(s, w0, r, f);
    }
  }

  lemma ApplyConnects(s: Secret, w0: World, r: State, f: Fate)
    requires |s.envFiles| > 0 && JournalInv(s, w0, r.local) && CellsInv(s, w0, r.local, r.world)
    requires r.local.phase == Applying
    ensures AppliedOverConnection(s, w0, Step(s, r, f).local)
  {
    hide Lookup, Plan, Apply, ResolveAdminPassword, ReadStep, GenerateStep, VerifyStep, WriteStep, RestartStep,
      UndoStep, RecordStep;
    var l := r.local;
    ResolvedOwner(s, w0.files[Primary(s)], l.journal.previous);
    AppliedMeansConnected(s.kind, l.target, r.world.cells, l.journal.next, f);
  }

  lemma VerifyConnects(s: Secret, w0: World, r: State, f: Fate)
    requires |s.envFiles| > 0 && JournalInv(s, w0, r.local) && CellsInv(s, w0, r.local, r.world)
    requires r.local.phase == Verifying
    requires AppliedOverConnection(s, w0, r.local)
    ensures AppliedOverConnection(s, w0, Step(s, r, f).local)
  {
    hide Lookup, Plan, Verify, ResolveAdminPassword, ReadStep, GenerateStep, ApplyStep, WriteStep, RestartStep,
      UndoStep, RecordStep;
    var l := r.local;
    ResolvedOwner(s, w0.files[Primary(s)], l.journal.previous);
    VerifiedMeansAccepted(l.target, r.world.cells, l.journal.next, f);
  }

  lemma OthersKeepConnection(s: Secret, w0: World, r: State, f: Fate)
    requires |s.envFiles| > 0 && JournalInv(s, w0, r.local) && AppliedOverConnection(s, w0, r.local)
    requires r.local.phase != Applying && r.local.phase != Verifying
    ensures AppliedOverConnection(s, w0, Step(s, r, f).local)
  {
    OtherStepKeepsApplied(s, w0, r, f);
    hide Step, JournalInv, WasApplied, Owner, AdminAccount, Accepts;
  }

  /** Only the Apply applies anything. */
  lemma OtherStepKeepsApplied(s: Secret, w0: World, r: State, f: Fate)
    requires |s.envFiles| > 0 && JournalInv(s, w0, r.local)
    requires r.local.phase != Applying && r.local.phase != Verifying
    ensures var l, l' := r.local, Step(s, r, f).local;
            && (WasApplied(s, l'.journal) ==>
                  WasApplied(s, l.journal) && l'.journal.next == l.journal.next && l'.target == l.target)
            && (l.cause == VerifyFailed ==> l'.cause == VerifyFailed)
            && l'.phase != Verifying
  {
    hide Lookup, Edit, ResolveAdminPassword, Plan, Restart, WriteFile, UndoAction, ApplyStep, VerifyStep, UndoStage,
      EndStage, JournalFacts;
  }

  lemma AppliedMeansConnected(kind: Kind, t: Target, cells: Cells, next: string, f: Fate)
    ensures HasBackingService(kind) && kind != Command && Apply(kind, t, cells, next, f).0 ==>
              TargetAccount(kind, t) in cells && Accepts(cells, AdminAccount(kind, t), t.adminPassword)
  {}

  lemma VerifiedMeansAccepted(t: Target, cells: Cells, next: string, f: Fate)
    ensures Verify(Redis, t, cells, next, f) ==> Accepts(cells, AdminAccount(Redis, t), next)
  {}

  lemma {:induction false} RunKeepsConnection(s: Secret, w0: World, fates: seq<Fate>)
    requires ValidSecret(s)
    ensures AppliedOverConnection(s, w0, Run(s, w0, fates).local)
  {
    hide Step, JournalInv, CellsInv, FilesInv, LoadedInv, LogInv;
    if fates != [] {
      var init, f := fates[..|fates|-1], fates[|fates|-1];
      RunKeepsConnection(s, w0, init);
      RunKeepsInv(s, w0, init);
      StepKeepsConnection(s, w0, Run(s, w0, init), f);
    }
  }

  /** The restore has a password to connect with.  It always does, but for a
      Redis user other than the default one: the restore tries the old and the
      new value as that user, who kept the admin password. */
  predicate CanReconnect(kind: Kind, t: Target, previous: string, next: string)
  {
    kind == Redis && AdminAccount(kind, t) != TargetAccount(kind, t) ==>
        t.adminPassword == previous || t.adminPassword == next
  }

  /** A Restore that meets no fault succeeds exactly when the user connected as
      has the previous or the current password, whatever the disk holds. */
  lemma RedisRestoreReachesPrevious(t: Target, cells: Cells, previous: string, current: string, f: Fate)
    requires FaultFree(f) && TargetAccount(Redis, t) in cells
    ensures RedisRestore(t, cells, previous, current, f).0
            <==> Accepts(cells, AdminAccount(Redis, t), previous) || Accepts(cells, AdminAccount(Redis, t), current)
  {}

  /** The SQL restore without faults reaches the previous password exactly when
      the configured admin credential still works, or the admin is the account
      that was rotated and the current one works. */
  lemma SqlRestoreReachesPrevious(kind: Kind, t: Target, cells: Cells, previous: string, current: string, f: Fate)
    requires (kind == MySQL || kind == Postgres) && FaultFree(f) && TargetAccount(kind, t) in cells
    ensures SqlRestore(kind, t, cells, previous, current, f).0 <==>
              || Accepts(cells, AdminAccount(kind, t), t.adminPassword)
              || (t.adminUser == EffectiveTargetUser(t) && Accepts(cells, TargetAccount(kind, t), current))
    ensures SqlRestore(kind, t, cells, previous, current, f).0 ==>
              SqlRestore(kind, t, cells, previous, current, f).1
                == cells[TargetAccount(kind, t) := Cell(previous, previous)]
  {}

  /** After an Apply over an accepted connection, a restore without faults
      works exactly when it has a password to connect with. */
  lemma RestoreConnectsExactlyWhen(kind: Kind, t: Target, cells0: Cells, previous: string, next: string, f: Fate)
    requires HasBackingService(kind) && FaultFree(f)
    requires kind != Command ==>
               TargetAccount(kind, t) in cells0 && Accepts(cells0, AdminAccount(kind, t), t.adminPassword)
    ensures Restore(kind, t, cells0[TargetAccount(kind, t) := Cell(next, next)], previous, next, f).0
            <==> CanReconnect(kind, t, previous, next)
  {
    var a := TargetAccount(kind, t);
    var cells := cells0[a := Cell(next, next)];
    match kind {
      case Command =>
      case Redis => RedisRestoreReachesPrevious(t, cells, previous, next, f);
      case _ => SqlRestoreReachesPrevious(kind, t, cells, previous, next, f);
    }
    hide SqlRestore, RedisRestore;
  }

  lemma FaultFreeRestoreFile(s: Secret, w0: World, l: Local, w: World, j: nat, f: Fate)
    requires FilesInv(s, w0, l, w) && j < |l.journal.written| && FaultFree(f)
    ensures forall snapshot :: RestoreFile(w.files, l.journal.written[j], snapshot, f).0
  {
    hide Lookup, Edit, Undone;
    assert l.journal.written[j] in w.files.Keys;
  }

  lemma FaultFreeRestoreCredential(s: Secret, w0: World, l: Local, w: World, f: Fate)
    requires |s.envFiles| > 0 && JournalInv(s, w0, l) && CellsInv(s, w0, l, w) && AppliedOverConnection(s, w0, l)
    requires WasApplied(s, l.journal) && Attempted(s, l) <= CredentialAt(l.journal) && FaultFree(f)
    requires !Untouched(l.phase)
    ensures Restore(s.kind, l.target, w.cells, l.journal.previous, l.journal.next, f).0
            <==> CanReconnect(s.kind, l.target, l.journal.previous, l.journal.next)
  {
    hide Lookup, ResolveAdminPassword, Restore, StageInv, Attempted, RestartActions;
    ResolvedOwner(s, w0.files[Primary(s)], l.journal.previous);
    RestoreConnectsExactlyWhen(s.kind, l.target, w0.cells, l.journal.previous, l.journal.next, f);
  }

  /** What fails in an undo without faults: nothing, or the credential for want
      of a password to connect with. */
  function Unavoidable(s: Secret, l: Local): seq<nat>
  {
    if WasApplied(s, l.journal) && CredentialAt(l.journal) < Attempted(s, l)
       && !CanReconnect(s.kind, l.target, l.journal.previous, l.journal.next)
    then [CredentialAt(l.journal)] else []
  }

  lemma FaultFreeUndoStep(s: Secret, w0: World, r: State, f: Fate)
    requires ValidSecret(s) && Inv(s, w0, r) && AppliedOverConnection(s, w0, r.local)
    requires r.local.phase.Undoing? && FaultFree(f) && r.local.failed == Unavoidable(s, r.local)
    ensures Step(s, r, f).local.failed == Unavoidable(s, Step(s, r, f).local)
  {
    hide JournalInv, FilesInv, CellsInv, LoadedInv, LogInv, AppliedOverConnection, Plan, Restore, RestoreFile,
      ValidKey, CanReconnect, LoadFirst;
    var l, w, j := r.local, r.world, r.local.phase.j;
    UndoPosition(s, w0, l, j);
    if j < |l.journal.written| {
      FaultFreeRestoreFile(s, w0, l, w, j, f);
      UndoAttempts(s, l, j, true);
    } else if Plan(s.kind, l.journal)[j].RestoreCredentialAction? {
      FaultFreeRestoreCredential(s, w0, l, w, f);
      UndoAttempts(s, l, j, CanReconnect(s.kind, l.target, l.journal.previous, l.journal.next));
    } else {
      UndoAttempts(s, l, j, true);
    }
  }

  /** However a rotation got into trouble, what fails in an undo that itself
      meets no fault is at most the credential, and exactly when the restore has
      no password to connect with. */
  lemma {:induction false} FaultFreeUndoFailsExactlyWhen(s: Secret, w0: World, fates: seq<Fate>)
    requires ValidSecret(s)
    requires forall k :: 0 <= k < |fates| && Run(s, w0, fates[..k]).local.phase.Undoing? ==> FaultFree(fates[k])
    ensures Run(s, w0, fates).local.failed == Unavoidable(s, Run(s, w0, fates).local)
    ensures var l := Run(s, w0, fates).local;
            EndedInFailure(l.phase) ==>
              (Ended(l.phase, RolledBack)
               <==> (WasApplied(s, l.journal) ==> CanReconnect(s.kind, l.target, l.journal.previous, l.journal.next)))
  {
    hide Step, Inv, JournalInv, Unavoidable, EndedInFailure, Ended, WasApplied, CanReconnect;
    if fates == [] {
      StartFailsNothing(s);
    } else {
      var init, f := fates[..|fates|-1], fates[|fates|-1];
      assert forall k :: 0 <= k <= |init| ==> init[..k] == fates[..k];
      FaultFreeUndoFailsExactlyWhen(s, w0, init);
      RunKeepsInv(s, w0, init);
      RunKeepsConnection(s, w0, init);
      var r := Run(s, w0, init);
      if r.local.phase.Undoing? {
        FaultFreeUndoStep(s, w0, r, f);
      } else {
        OnlyUndoingFails(s, w0, r, f);
      }
    }
    ReachableJournal(s, w0, fates);
    HasFiles(s);
    var l := Run(s, w0, fates).local;
    if EndedInFailure(l.phase) {
      FailuresAtTheEnd(s, w0, l);
    }
  }

  lemma StartFailsNothing(s: Secret)
    ensures Start(s).failed == Unavoidable(s, Start(s))
  {}

  lemma OnlyUndoingFails(s: Secret, w0: World, r: State, f: Fate)
    requires |s.envFiles| > 0 && !r.local.phase.Undoing? && Inv(s, w0, r)
    requires r.local.failed == Unavoidable(s, r.local)
    ensures Step(s, r, f).local.failed == Unavoidable(s, Step(s, r, f).local)
  {
    OnlyUndoingAttempts(s, w0, r, f);
    hide FilesInv, CellsInv, LoadedInv, LogInv, Lookup, Edit, ResolveAdminPassword, Apply, Verify, Restart, WriteFile,
      CanReconnect, CredentialAt, JournalFacts, WasApplied, FileActions, Attempted, Plan, UndoFrom, StageInv;
  }

  lemma OnlyUndoingAttempts(s: Secret, w0: World, r: State, f: Fate)
    requires |s.envFiles| > 0 && !r.local.phase.Undoing? && JournalInv(s, w0, r.local)
    ensures var l, l' := r.local, Step(s, r, f).local;
            && l'.failed == l.failed
            && (Attempted(s, l') == 0
                || (Attempted(s, l') == Attempted(s, l) && l'.journal == l.journal && l'.target == l.target))
  {
    if Quiet(r.local.phase) {
      QuietAttempts(s, w0, r, f);
    } else {
      BusyAttempts(s, w0, r, f);
    }
    hide Step, JournalInv, Attempted;
  }

  lemma QuietAttempts(s: Secret, w0: World, r: State, f: Fate)
    requires |s.envFiles| > 0 && Quiet(r.local.phase) && JournalInv(s, w0, r.local)
    ensures var l, l' := r.local, Step(s, r, f).local;
            && l'.failed == l.failed
            && (Attempted(s, l') == 0
                || (Attempted(s, l') == Attempted(s, l) && l'.journal == l.journal && l'.target == l.target))
  {
    hide Lookup, ResolveAdminPassword, JournalFacts, FileActions, RestartActions, UndoStage, ApplyStep, VerifyStep,
      WriteStep, RestartStep, UndoStep;
    if r.local.phase == Generating && !f.ok {
      assert Plan(s.kind, r.local.journal) == [];
    }
    hide Plan;
  }

  lemma BusyAttempts(s: Secret, w0: World, r: State, f: Fate)
    requires |s.envFiles| > 0 && !Quiet(r.local.phase) && !r.local.phase.Undoing? && JournalInv(s, w0, r.local)
    ensures Step(s, r, f).local.failed == r.local.failed && Attempted(s, Step(s, r, f).local) == 0
  {
    hide Lookup, Edit, ResolveAdminPassword, Plan, Apply, Verify, Restart, WriteFile, JournalFacts, UndoStage,
      ReadStep, GenerateStep, UndoStep, RecordStep, WithFileWritten, WithRestarted, WithStep;
  }

  lemma FailuresAtTheEnd(s: Secret, w0: World, l: Local)
    requires |s.envFiles| > 0 && JournalInv(s, w0, l) && EndedInFailure(l.phase) && l.failed == Unavoidable(s, l)
    ensures Ended(l.phase, RolledBack)
            <==> (WasApplied(s, l.journal) ==> CanReconnect(s.kind, l.target, l.journal.previous, l.journal.next))
  {
    EndedPlan(s, w0, l);
    hide JournalInv, CanReconnect, Attempted, RestartActions, WasApplied;
  }
}
