/** One rotation as a machine: each step is one port call and consumes one
    fate, so a run over a sequence of fates is a run under a fault schedule. */
module Saga {
  import opened Text
  import opened EnvFiles
  import opened Compose
  import opened Domain
  import opened Rotations

  datatype Cause = NoCause | GenerateFailed | ApplyFailed | VerifyFailed | WriteFailed | RestartFailed

  /** How a rotation ends.  Refused is an error before anything was touched;
      RolledBack is `ErrRotationFailed` alone; RollbackFailed also carries
      `ErrRollbackFailed`. */
  datatype Outcome = Success | Refused | RolledBack | RollbackFailed

  datatype Phase =
    | Looking | Resolving | Reading | Generating | Applying | Verifying
    | Writing(i: nat) | Restarting
    | Undoing(j: nat)
    | Recording(outcome: Outcome) | Finished(outcome: Outcome)

  /** `failed` lists the positions of the undo actions that failed. */
  datatype Local = Local(phase: Phase, containers: seq<string>, target: Target, journal: Journal,
                         cause: Cause, failed: seq<nat>)

  datatype State = State(local: Local, world: World)

  function Start(s: Secret): Local
  {
    Local(Looking, [], s.target, EMPTY, NoCause, [])
  }

  function Primary(s: Secret): string
    requires |s.envFiles| > 0
  {
    s.envFiles[0]
  }

  // ---------------------------------------------------------------- the steps

  function UndoOutcome(failed: seq<nat>): Outcome
  {
    if failed == [] then RolledBack else RollbackFailed
  }

  /** Where undoing action j leads: the next action, or recording the failure. */
  function UndoFrom(kind: Kind, l: Local, j: nat): Phase
  {
    if j < |Plan(kind, l.journal)| then Undoing(j) else Recording(UndoOutcome(l.failed))
  }

  function Compensate(s: Secret, l: Local, cause: Cause): Local
  {
    l.(cause := cause, phase := UndoFrom(s.kind, l, 0))
  }

  /** After the last file: restart if there is anything to restart. */
  function AfterFiles(l: Local): Local
  {
    if |l.containers| > 0 then l.(phase := Restarting)
    else l.(phase := Recording(Success), journal := WithStep(l.journal, Done))
  }

  function ReadStep(s: Secret, l: Local, w: World, f: Fate): Local
    requires |s.envFiles| > 0
  {
    var primary := Primary(s);
    if !f.ok || primary !in w.files || Lookup(w.files[primary], s.envKey).None? then l.(phase := Finished(Refused))
    else
      var current := Lookup(w.files[primary], s.envKey).value;
      l.(phase := Generating,
         journal := WithCurrent(l.journal, primary, current, w.files[primary]),
         target := ResolveAdminPassword(s.target, w.files[primary], current))
  }

  function GenerateStep(s: Secret, l: Local, f: Fate): Local
  {
    if f.ok then
      l.(phase := if HasBackingService(s.kind) then Applying else Writing(0),
         journal := WithGenerated(l.journal, f.text))
    else l.(phase := Recording(RolledBack), cause := GenerateFailed)
  }

  function ApplyStep(s: Secret, l: Local, w: World, f: Fate): State
  {
    var (ok, cells) := Apply(s.kind, l.target, w.cells, l.journal.next, f);
    State(if ok then l.(phase := Verifying, journal := WithStep(l.journal, Applied)) else Compensate(s, l, ApplyFailed),
          w.(cells := cells))
  }

  function VerifyStep(s: Secret, l: Local, w: World, f: Fate): Local
  {
    if Verify(s.kind, l.target, w.cells, l.journal.next, f)
    then l.(phase := Writing(0), journal := WithStep(l.journal, Verified))
    else Compensate(s, l, VerifyFailed)
  }

  function WriteStep(s: Secret, l: Local, w: World, f: Fate): State
    requires l.phase.Writing?
  {
    var i := l.phase.i;
    if i >= |s.envFiles| then State(AfterFiles(l), w)
    else
      var (before, files) := WriteFile(w.files, s.envFiles[i], s.envKey, l.journal.next, f);
      if before.None? then State(Compensate(s, l, WriteFailed), w)
      else
        var l' := l.(journal := WithFileWritten(l.journal, s.envFiles[i], before.value));
        State(if i + 1 < |s.envFiles| then l'.(phase := Writing(i + 1)) else AfterFiles(l'),
              w.(files := files))
  }

  function RestartStep(s: Secret, l: Local, w: World, f: Fate): State
  {
    var (ok, loaded) := Restart(w.loaded, w.files, l.containers, f);
    var l' := l.(journal := WithRestarted(l.journal, l.containers));
    State(if ok then l'.(phase := Recording(Success), journal := WithStep(l'.journal, Done))
          else Compensate(s, l', RestartFailed),
          w.(loaded := loaded))
  }

  /** Carries out one undo action; a failing one does not stop the next. */
  function UndoAction(s: Secret, l: Local, w: World, action: Action, f: Fate): (bool, World)
  {
    match action
    case RestoreFileAction(path, snapshot) =>
      var (ok, files) := RestoreFile(w.files, path, snapshot, f);
      (ok, w.(files := files))
    case RestartAction(containers) =>
      var (ok, loaded) := Restart(w.loaded, w.files, containers, f);
      (ok, w.(loaded := loaded))
    case RestoreCredentialAction =>
      var (ok, cells) := Restore(s.kind, l.target, w.cells, l.journal.previous, l.journal.next, f);
      (ok, w.(cells := cells))
  }

  function UndoStep(s: Secret, l: Local, w: World, f: Fate): State
    requires l.phase.Undoing?
  {
    var plan, j := Plan(s.kind, l.journal), l.phase.j;
    if j >= |plan| then State(l.(phase := Recording(UndoOutcome(l.failed))), w)
    else
      var (ok, w') := UndoAction(s, l, w, plan[j], f);
      var l' := if ok then l else l.(failed := l.failed + [j]);
      State(l'.(phase := UndoFrom(s.kind, l', j + 1)), w')
  }

  /** The audit record; failing to write it changes nothing about the outcome. */
  function RecordStep(s: Secret, l: Local, w: World, f: Fate): State
    requires l.phase.Recording?
  {
    var record := Record(s.name, l.phase.outcome == Success, l.journal.step, l.journal.previous);
    State(l.(phase := Finished(l.phase.outcome)), if f.ok then w.(log := w.log + [record]) else w)
  }

  function Step(s: Secret, r: State, f: Fate): State
    requires |s.envFiles| > 0
  {
    var l, w := r.local, r.world;
    match l.phase
    case Looking => State(if f.ok then l.(phase := Resolving) else l.(phase := Finished(Refused)), w)
    case Resolving => State(if f.ok then l.(phase := Reading, containers := f.names)
                            else l.(phase := Finished(Refused)), w)
    case Reading => State(ReadStep(s, l, w, f), w)
    case Generating => State(GenerateStep(s, l, f), w)
    case Applying => ApplyStep(s, l, w, f)
    case Verifying => State(VerifyStep(s, l, w, f), w)
    case Writing(_) => WriteStep(s, l, w, f)
    case Restarting => RestartStep(s, l, w, f)
    case Undoing(_) => UndoStep(s, l, w, f)
    case Recording(_) => RecordStep(s, l, w, f)
    case Finished(_) => r
  }

  /** The state after a fault schedule. */
  function Run(s: Secret, w0: World, fates: seq<Fate>): State
    requires |s.envFiles| > 0
  {
    if fates == [] then State(Start(s), w0)
    else Step(s, Run(s, w0, fates[..|fates|-1]), fates[|fates|-1])
  }

  lemma RunSnoc(s: Secret, w0: World, fates: seq<Fate>, f: Fate)
    requires |s.envFiles| > 0
    ensures Run(s, w0, fates + [f]) == Step(s, Run(s, w0, fates), f)
  {
    hide Step;
    assert (fates + [f])[..|fates|] == fates;
  }

  lemma RunNothing(s: Secret, w0: World, fates: seq<Fate>)
    requires |s.envFiles| > 0
    ensures Run(s, w0, fates[..0]) == State(Start(s), w0)
  {}

  lemma RunTake(s: Secret, w0: World, fates: seq<Fate>, k: nat)
    requires |s.envFiles| > 0 && k < |fates|
    ensures Run(s, w0, fates[..k+1]) == Step(s, Run(s, w0, fates[..k]), fates[k])
  {
    hide Step;
    assert fates[..k+1][..k] == fates[..k];
  }

  /** What has finished stays so. */
  lemma {:induction false} FinishedStays(s: Secret, w0: World, fates: seq<Fate>, k: nat)
    requires |s.envFiles| > 0 && k <= |fates| && Run(s, w0, fates[..k]).local.phase.Finished?
    ensures Run(s, w0, fates) == Run(s, w0, fates[..k])
    decreases |fates|
  {
    if k < |fates| {
      var init := fates[..|fates|-1];
      assert init[..k] == fates[..k];
      FinishedStays(s, w0, init, k);
      hide ReadStep, GenerateStep, ApplyStep, VerifyStep, WriteStep, RestartStep, UndoStep, RecordStep;
    } else {
      assert fates[..k] == fates;
    }
  }

  // ---------------------------------------------------------------- how far the undo got

  predicate Ended(phase: Phase, outcome: Outcome)
  {
    (phase.Recording? || phase.Finished?) && phase.outcome == outcome
  }

  predicate EndedInFailure(phase: Phase)
  {
    Ended(phase, RolledBack) || Ended(phase, RollbackFailed)
  }

  /** Number of undo actions attempted so far. */
  function Attempted(s: Secret, l: Local): nat
  {
    if l.phase.Undoing? then l.phase.j
    else if EndedInFailure(l.phase) then |Plan(s.kind, l.journal)|
    else 0
  }

  predicate Undone(s: Secret, l: Local, k: nat)
  {
    k < Attempted(s, l) && k !in l.failed
  }

  predicate Untouched(phase: Phase)
  {
    phase == Looking || phase == Resolving || phase == Reading || phase == Finished(Refused)
  }

  predicate BeforeUndo(phase: Phase)
  {
    !phase.Undoing? && !EndedInFailure(phase)
  }

  /** The account whose password changes. */
  function Owner(s: Secret): Account
  {
    TargetAccount(s.kind, s.target)
  }

  // ---------------------------------------------------------------- the invariants

  /** The journal says exactly what was read and written. */
  ghost predicate JournalFacts(s: Secret, w0: World, j: Journal, target: Target)
    requires |s.envFiles| > 0
  {
    && Primary(s) in w0.files
    && Lookup(w0.files[Primary(s)], s.envKey) == Some(j.previous)
    && target == ResolveAdminPassword(s.target, w0.files[Primary(s)], j.previous)
    && |j.written| <= |s.envFiles| && j.written == s.envFiles[..|j.written|]
    && (forall p :: p in j.backups ==> p in w0.files && j.backups[p] == w0.files[p])
    && (forall p :: p in j.written ==> p in j.backups)
  }

  /** The journal, and why the machine is in this phase. */
  ghost predicate JournalInv(s: Secret, w0: World, l: Local)
    requires |s.envFiles| > 0
  {
    if Untouched(l.phase) then l.journal == EMPTY && l.cause == NoCause && l.failed == []
    else
      && JournalFacts(s, w0, l.journal, l.target)
      && (forall k :: k in l.failed ==> k < Attempted(s, l))
      && StageInv(s, l)
  }

  /** Which steps are recorded in which phase. */
  ghost predicate StageInv(s: Secret, l: Local)
  {
    var j, n := l.journal, |l.journal.written|;
    match l.phase
    case Generating => n == 0 && j.step == Read && j.restarted == [] && l.cause == NoCause && l.failed == []
    case Applying => n == 0 && j.step == Generated && j.restarted == [] && l.cause == NoCause && l.failed == []
      && HasBackingService(s.kind)
    case Verifying => n == 0 && j.step == Applied && j.restarted == [] && l.cause == NoCause && l.failed == []
      && HasBackingService(s.kind)
    case Writing(i) => n == i < |s.envFiles| && ServiceStep(s, j) && j.restarted == [] && l.cause == NoCause
      && l.failed == []
    case Restarting => n == |s.envFiles| && ServiceStep(s, j) && j.restarted == [] && l.cause == NoCause
      && l.failed == [] && |l.containers| > 0
    case Undoing(k) => k < |Plan(s.kind, j)| && UndoStage(s, l.cause, l.journal, l.containers)
    case Recording(o) => EndStage(s, l, o)
    case Finished(o) => EndStage(s, l, o)
    case _ => false
  }

  /** Between verifying and restarting: for kinds with a service it has been applied. */
  predicate ServiceStep(s: Secret, j: Journal)
  {
    Rank(Generated) <= Rank(j.step) < Rank(Restarted) && (HasBackingService(s.kind) ==> Rank(j.step) >= Rank(Applied))
  }

  ghost predicate UndoStage(s: Secret, cause: Cause, j: Journal, containers: seq<string>)
  {
    match cause
    case ApplyFailed => |j.written| == 0 && j.step == Generated && j.restarted == [] && HasBackingService(s.kind)
    case VerifyFailed => ServiceStep(s, j) && j.restarted == [] && |j.written| == 0
    case WriteFailed => ServiceStep(s, j) && j.restarted == []
    case RestartFailed => j.step == Restarted && j.restarted == containers && |containers| > 0
      && |j.written| == |s.envFiles|
    case _ => false
  }

  ghost predicate EndStage(s: Secret, l: Local, o: Outcome)
  {
    match o
    case Refused => false
    case Success => |l.journal.written| == |s.envFiles| && l.journal.step == Done && l.journal.restarted == l.containers
                    && l.cause == NoCause && l.failed == []
    case _ => o == UndoOutcome(l.failed) && if l.cause == GenerateFailed
              then l.journal.step == Read && l.journal.written == [] && l.journal.restarted == []
              else UndoStage(s, l.cause, l.journal, l.containers)
  }

  /** A written file holds the edit until its restore has worked; every other
      file holds the bytes it had before the run. */
  ghost predicate FilesInv(s: Secret, w0: World, l: Local, w: World)
  {
    && w.files.Keys == w0.files.Keys
    && (forall p :: p in w0.files && p !in l.journal.written ==> w.files[p] == w0.files[p])
    && (forall k :: 0 <= k < |l.journal.written| ==>
          && l.journal.written[k] in w0.files
          && Lookup(w0.files[l.journal.written[k]], s.envKey).Some?
          && w.files[l.journal.written[k]]
             == if Undone(s, l, k) then w0.files[l.journal.written[k]]
                else Edit(w0.files[l.journal.written[k]], s.envKey, l.journal.next))
  }

  predicate WasApplied(s: Secret, j: Journal)
  {
    HasBackingService(s.kind) && Rank(j.step) >= Rank(Applied)
  }

  /** Position of the credential action in the plan. */
  function CredentialAt(j: Journal): nat
  {
    |j.written| + |RestartActions(j)|
  }

  /** `step >= StepApplied` means exactly that the service was changed; then it
      holds the new credential until the restore has been attempted, and then
      the previous one or what a failing restore left. */
  ghost predicate CellsInv(s: Secret, w0: World, l: Local, w: World)
  {
    var j := l.journal;
    && SameElsewhere(w0.cells, w.cells, Owner(s))
    && (if !WasApplied(s, j) then (l.cause != ApplyFailed ==> w.cells == w0.cells)
        else if Attempted(s, l) <= CredentialAt(j) then w.cells == w0.cells[Owner(s) := Cell(j.next, j.next)]
        else if CredentialAt(j) in l.failed
        then RestoreFailedFrom(s.kind, w0.cells[Owner(s) := Cell(j.next, j.next)], Owner(s), j.previous, w.cells)
        else w.cells == w0.cells[Owner(s) := Cell(j.previous, j.previous)])
  }

  ghost predicate SameLoadsElsewhere(loaded: Loads, loaded': Loads, names: seq<string>)
  {
    forall c :: c !in names ==> (c in loaded <==> c in loaded') && (c in loaded ==> loaded'[c] == loaded[c])
  }

  ghost predicate AllLoaded(loaded: Loads, names: seq<string>, files: Files)
  {
    forall c :: c in names ==> c in loaded && loaded[c] == files
  }

  /** Containers are touched only by a restart; once the compensating restart
      has worked, each holds the files as they are now. */
  ghost predicate LoadedInv(s: Secret, w0: World, l: Local, w: World)
  {
    && SameLoadsElsewhere(w0.loaded, w.loaded, l.journal.restarted)
    && (Ended(l.phase, Success) || (l.journal.restarted != [] && Undone(s, l, |l.journal.written|)) ==>
          AllLoaded(w.loaded, l.journal.restarted, w.files))
  }

  ghost predicate LogInv(s: Secret, w0: World, l: Local, w: World)
  {
    if !l.phase.Finished? || l.phase.outcome == Refused then w.log == w0.log
    else
      var record := Record(s.name, l.phase.outcome == Success, l.journal.step, l.journal.previous);
      w.log == w0.log || w.log == w0.log + [record]
  }

  ghost predicate Inv(s: Secret, w0: World, r: State)
    requires |s.envFiles| > 0
  {
    && JournalInv(s, w0, r.local)
    && FilesInv(s, w0, r.local, r.world)
    && CellsInv(s, w0, r.local, r.world)
    && LoadedInv(s, w0, r.local, r.world)
    && LogInv(s, w0, r.local, r.world)
  }

  // ---------------------------------------------------------------- each step keeps them

  lemma ResolvedOwner(s: Secret, doc: string, current: string)
    ensures TargetAccount(s.kind, ResolveAdminPassword(s.target, doc, current)) == Owner(s)
    ensures AdminAccount(s.kind, ResolveAdminPassword(s.target, doc, current)) == AdminAccount(s.kind, s.target)
  {}

  lemma LookStepKeepsInv(s: Secret, w0: World, r: State, f: Fate)
    requires |s.envFiles| > 0 && Inv(s, w0, r)
    requires r.local.phase == Looking || r.local.phase == Resolving
    ensures Inv(s, w0, Step(s, r, f))
  {
    hide Lookup, Edit, ResolveAdminPassword, Plan;
  }

  lemma ReadStepKeepsInv(s: Secret, w0: World, r: State, f: Fate)
    requires |s.envFiles| > 0 && Inv(s, w0, r) && r.local.phase == Reading
    ensures Inv(s, w0, State(ReadStep(s, r.local, r.world, f), r.world))
  {
    hide Lookup, Edit, ResolveAdminPassword, Plan;
  }

  lemma GenerateStepKeepsInv(s: Secret, w0: World, r: State, f: Fate)
    requires |s.envFiles| > 0 && Inv(s, w0, r) && r.local.phase == Generating
    ensures Inv(s, w0, State(GenerateStep(s, r.local, f), r.world))
  {
    GenerateKeepsJournalInv(s, w0, r.local, f);
    hide Lookup, ResolveAdminPassword, JournalFacts, GenerateStep, FilesInv, CellsInv, LoadedInv, LogInv;
    GenerateKeepsTheRest(s, w0, r.local, r.world, f);
  }

  lemma GenerateKeepsJournalInv(s: Secret, w0: World, l: Local, f: Fate)
    requires |s.envFiles| > 0 && JournalInv(s, w0, l) && l.phase == Generating
    ensures JournalInv(s, w0, GenerateStep(s, l, f))
  {
    hide Lookup, ResolveAdminPassword, Plan, UndoStage;
  }

  lemma GenerateKeepsTheRest(s: Secret, w0: World, l: Local, w: World, f: Fate)
    requires l.phase == Generating && l.journal.written == [] && l.journal.step == Read && l.journal.restarted == []
    requires l.cause == NoCause && FilesInv(s, w0, l, w) && CellsInv(s, w0, l, w) && LoadedInv(s, w0, l, w)
    requires LogInv(s, w0, l, w)
    ensures var l' := GenerateStep(s, l, f);
            FilesInv(s, w0, l', w) && CellsInv(s, w0, l', w) && LoadedInv(s, w0, l', w) && LogInv(s, w0, l', w)
  {
    hide Lookup, Edit, Plan, SameElsewhere, SameLoadsElsewhere, AllLoaded, Attempted, RestoreFailedFrom;
  }

  lemma ApplyStepKeepsInv(s: Secret, w0: World, r: State, f: Fate)
    requires |s.envFiles| > 0 && Inv(s, w0, r) && r.local.phase == Applying
    ensures Inv(s, w0, ApplyStep(s, r.local, r.world, f))
  {
    hide Lookup, Edit, ResolveAdminPassword, Apply, JournalFacts, FilesInv, CellsInv, LoadedInv, LogInv, Compensate,
      SameElsewhere;
    var l, w := r.local, r.world;
    var (ok, cells) := Apply(s.kind, l.target, w.cells, l.journal.next, f);
    AppliedOwner(s, w0, l, w.cells, f);
    if ok {
      StepKeepsFacts(s, w0, l.journal, l.target, Applied);
      AppliedKeepsTheRest(s, w0, l, w, cells);
    } else {
      CompensateKeepsJournalInv(s, w0, l, ApplyFailed);
      FailedApplyKeepsTheRest(s, w0, l, w, cells);
    }
  }

  lemma AppliedOwner(s: Secret, w0: World, l: Local, cells: Cells, f: Fate)
    requires |s.envFiles| > 0 && JournalInv(s, w0, l) && l.phase == Applying
    ensures var (ok, cells') := Apply(s.kind, l.target, cells, l.journal.next, f);
            && SameElsewhere(cells, cells', Owner(s))
            && (ok ==> cells' == cells[Owner(s) := Cell(l.journal.next, l.journal.next)])
  {
    hide Lookup, Apply, ResolveAdminPassword;
    ResolvedOwner(s, w0.files[Primary(s)], l.journal.previous);
    ApplyEffect(s.kind, l.target, cells, l.journal.next, f);
  }

  lemma AppliedKeepsTheRest(s: Secret, w0: World, l: Local, w: World, cells: Cells)
    requires l.phase == Applying && l.journal.step == Generated && HasBackingService(s.kind) && l.cause == NoCause
    requires FilesInv(s, w0, l, w) && CellsInv(s, w0, l, w) && LoadedInv(s, w0, l, w) && LogInv(s, w0, l, w)
    requires cells == w.cells[Owner(s) := Cell(l.journal.next, l.journal.next)]
    ensures var l', w' := l.(phase := Verifying, journal := WithStep(l.journal, Applied)), w.(cells := cells);
            FilesInv(s, w0, l', w') && CellsInv(s, w0, l', w') && LoadedInv(s, w0, l', w') && LogInv(s, w0, l', w')
  {
    hide Lookup, Edit, Plan, SameLoadsElsewhere, AllLoaded, RestoreFailedFrom;
    assert Attempted(s, l) == 0 && Attempted(s, l.(phase := Verifying, journal := WithStep(l.journal, Applied))) == 0;
    hide Attempted;
  }

  lemma FailedApplyKeepsTheRest(s: Secret, w0: World, l: Local, w: World, cells: Cells)
    requires l.phase == Applying && l.journal.step == Generated && l.cause == NoCause && l.failed == []
    requires FilesInv(s, w0, l, w) && CellsInv(s, w0, l, w) && LoadedInv(s, w0, l, w) && LogInv(s, w0, l, w)
    requires SameElsewhere(w.cells, cells, Owner(s))
    ensures var l', w' := Compensate(s, l, ApplyFailed), w.(cells := cells);
            FilesInv(s, w0, l', w') && CellsInv(s, w0, l', w') && LoadedInv(s, w0, l', w') && LogInv(s, w0, l', w')
  {
    hide Lookup, Edit, Plan, SameLoadsElsewhere, AllLoaded;
    assert Attempted(s, Compensate(s, l, ApplyFailed)) == 0;
  }

  /** Turning to the undo is justified by the journal as it stands. */
  lemma CompensateKeepsJournalInv(s: Secret, w0: World, l: Local, cause: Cause)
    requires |s.envFiles| > 0 && JournalFacts(s, w0, l.journal, l.target) && l.failed == []
    requires UndoStage(s, cause, l.journal, l.containers)
    ensures JournalInv(s, w0, Compensate(s, l, cause))
  {
    hide Plan, JournalFacts;
  }

  /** Turning to the undo undoes nothing yet. */
  lemma CompensateKeepsTheRest(s: Secret, w0: World, l: Local, w: World, cause: Cause)
    requires BeforeUndo(l.phase) && !l.phase.Finished? && !l.phase.Recording? && l.failed == [] && l.cause == NoCause
    requires FilesInv(s, w0, l, w) && CellsInv(s, w0, l, w) && LoadedInv(s, w0, l, w) && LogInv(s, w0, l, w)
    ensures var l' := Compensate(s, l, cause);
            FilesInv(s, w0, l', w) && CellsInv(s, w0, l', w) && LoadedInv(s, w0, l', w) && LogInv(s, w0, l', w)
  {
    hide Lookup, Edit, Plan, SameElsewhere, SameLoadsElsewhere;
    assert Attempted(s, Compensate(s, l, cause)) == 0;
    hide Compensate;
  }

  lemma VerifyStepKeepsInv(s: Secret, w0: World, r: State, f: Fate)
    requires |s.envFiles| > 0 && Inv(s, w0, r) && r.local.phase == Verifying
    ensures Inv(s, w0, State(VerifyStep(s, r.local, r.world, f), r.world))
  {
    hide Lookup, Edit, ResolveAdminPassword, Verify, Plan, JournalFacts, Compensate, FilesInv, CellsInv, LoadedInv,
      LogInv;
    if Verify(s.kind, r.local.target, r.world.cells, r.local.journal.next, f) {
      StepKeepsFacts(s, w0, r.local.journal, r.local.target, Verified);
      VerifiedKeepsTheRest(s, w0, r.local, r.world);
    } else {
      CompensateKeepsJournalInv(s, w0, r.local, VerifyFailed);
      CompensateKeepsTheRest(s, w0, r.local, r.world, VerifyFailed);
    }
  }

  lemma VerifiedKeepsTheRest(s: Secret, w0: World, l: Local, w: World)
    requires l.phase == Verifying && l.journal.step == Applied
    requires FilesInv(s, w0, l, w) && CellsInv(s, w0, l, w) && LoadedInv(s, w0, l, w) && LogInv(s, w0, l, w)
    ensures var l' := l.(phase := Writing(0), journal := WithStep(l.journal, Verified));
            FilesInv(s, w0, l', w) && CellsInv(s, w0, l', w) && LoadedInv(s, w0, l', w) && LogInv(s, w0, l', w)
  {
    hide Lookup, Edit, Plan, SameElsewhere, SameLoadsElsewhere, AllLoaded;
  }

  lemma StepKeepsFacts(s: Secret, w0: World, j: Journal, target: Target, to: StepName)
    requires |s.envFiles| > 0 && JournalFacts(s, w0, j, target)
    ensures JournalFacts(s, w0, WithStep(j, to), target)
  {
    hide Lookup, ResolveAdminPassword;
  }

  lemma RecordStepKeepsInv(s: Secret, w0: World, r: State, f: Fate)
    requires |s.envFiles| > 0 && Inv(s, w0, r) && r.local.phase.Recording?
    ensures Inv(s, w0, RecordStep(s, r.local, r.world, f))
  {
    hide JournalInv, FilesInv, CellsInv, LoadedInv, LogInv;
    RecordKeepsJournalInv(s, w0, r.local);
    RecordKeepsTheRest(s, w0, r.local, r.world, f);
  }

  lemma RecordKeepsJournalInv(s: Secret, w0: World, l: Local)
    requires |s.envFiles| > 0 && JournalInv(s, w0, l) && l.phase.Recording?
    ensures JournalInv(s, w0, l.(phase := Finished(l.phase.outcome))) && l.phase.outcome != Refused
  {
    hide JournalFacts, UndoStage, Plan;
  }

  lemma RecordKeepsTheRest(s: Secret, w0: World, l: Local, w: World, f: Fate)
    requires l.phase.Recording? && l.phase.outcome != Refused
    requires FilesInv(s, w0, l, w) && CellsInv(s, w0, l, w) && LoadedInv(s, w0, l, w) && LogInv(s, w0, l, w)
    ensures var r := RecordStep(s, l, w, f);
            && FilesInv(s, w0, r.local, r.world) && CellsInv(s, w0, r.local, r.world)
            && LoadedInv(s, w0, r.local, r.world) && LogInv(s, w0, r.local, r.world)
  {
    hide Lookup, Edit, Plan, SameElsewhere, SameLoadsElsewhere, AllLoaded, RestoreFailedFrom;
    assert Attempted(s, l.(phase := Finished(l.phase.outcome))) == Attempted(s, l);
    hide Attempted;
  }

  lemma FailedWriteKeepsInv(s: Secret, w0: World, r: State)
    requires |s.envFiles| > 0 && Inv(s, w0, r) && r.local.phase.Writing?
    ensures Inv(s, w0, State(Compensate(s, r.local, WriteFailed), r.world))
  {
    hide Lookup, Edit, ResolveAdminPassword, Plan, JournalFacts, FilesInv, CellsInv, LoadedInv, LogInv, Compensate;
    CompensateKeepsJournalInv(s, w0, r.local, WriteFailed);
    CompensateKeepsTheRest(s, w0, r.local, r.world, WriteFailed);
  }

  /** The file about to be written has not been written yet. */
  lemma NextFileIsUnwritten(s: Secret, w0: World, l: Local)
    requires ValidSecret(s) && JournalInv(s, w0, l) && l.phase.Writing?
    ensures l.phase.i < |s.envFiles| && l.phase.i == |l.journal.written|
    ensures s.envFiles[l.phase.i] !in l.journal.written
    ensures l.journal.written + [s.envFiles[l.phase.i]] == s.envFiles[..l.phase.i+1]
  {
    hide Lookup, Edit, ResolveAdminPassword, ValidKey;
  }

  lemma FileWrittenKeepsJournalInv(s: Secret, w0: World, l: Local, i: nat, path: string)
    requires |s.envFiles| > 0 && JournalInv(s, w0, l) && l.phase == Writing(i)
    requires i < |s.envFiles| && path == s.envFiles[i] && path in w0.files
    requires l.journal.written + [path] == s.envFiles[..i+1]
    ensures var l' := l.(journal := WithFileWritten(l.journal, path, w0.files[path]));
            JournalInv(s, w0, if i + 1 < |s.envFiles| then l'.(phase := Writing(i + 1)) else AfterFiles(l'))
  {
    hide JournalFacts, StageInv;
    var j' := WithFileWritten(l.journal, path, w0.files[path]);
    WritingStage(s, l, i);
    WrittenKeepsFacts(s, w0, l.journal, l.target, i, path);
    StepKeepsFacts(s, w0, j', l.target, Done);
    WrittenKeepsStage(s, l, i, path, w0.files[path]);
  }

  lemma WritingStage(s: Secret, l: Local, i: nat)
    requires StageInv(s, l) && l.phase == Writing(i)
    ensures |l.journal.written| == i < |s.envFiles| && l.failed == []
  {}

  lemma WrittenKeepsStage(s: Secret, l: Local, i: nat, path: string, before: string)
    requires StageInv(s, l) && l.phase == Writing(i) && l.failed == []
    ensures StageInv(s, AfterWrite(s, l, i, path, before)) && AfterWrite(s, l, i, path, before).failed == []
    ensures !Untouched(AfterWrite(s, l, i, path, before).phase)
  {
    hide Plan, UndoStage;
  }

  lemma WrittenKeepsFacts(s: Secret, w0: World, j: Journal, target: Target, i: nat, path: string)
    requires |s.envFiles| > 0 && JournalFacts(s, w0, j, target) && path in w0.files && i < |s.envFiles|
    requires j.written + [path] == s.envFiles[..i+1]
    ensures JournalFacts(s, w0, WithFileWritten(j, path, w0.files[path]), target)
  {
    hide Lookup, ResolveAdminPassword;
    assert |j.written + [path]| == i + 1;
  }

  function AfterWrite(s: Secret, l: Local, i: nat, path: string, before: string): Local
  {
    var l' := l.(journal := WithFileWritten(l.journal, path, before));
    if i + 1 < |s.envFiles| then l'.(phase := Writing(i + 1)) else AfterFiles(l')
  }

  lemma FileWrittenKeepsFilesInv(s: Secret, w0: World, l: Local, w: World, i: nat, path: string)
    requires FilesInv(s, w0, l, w) && l.phase == Writing(i) && l.failed == []
    requires path in w0.files && path !in l.journal.written && Lookup(w0.files[path], s.envKey).Some?
    ensures FilesInv(s, w0, AfterWrite(s, l, i, path, w0.files[path]),
                     w.(files := w.files[path := Edit(w.files[path], s.envKey, l.journal.next)]))
  {
    hide AfterWrite, Attempted, FilesInv, HoldEdit, Edit, Lookup;
    var l' := AfterWrite(s, l, i, path, w0.files[path]);
    AfterWriteFacts(s, l, i, path, w0.files[path]);
    NothingUndone(s, w0, l, w);
    MoreWritten(s, w0, l.journal.written, w.files, path, l.journal.next);
    NothingUndone(s, w0, l', w.(files := w.files[path := Edit(w.files[path], s.envKey, l.journal.next)]));
  }

  lemma AfterWriteFacts(s: Secret, l: Local, i: nat, path: string, before: string)
    requires l.phase == Writing(i)
    ensures var l' := AfterWrite(s, l, i, path, before);
            && l'.journal.written == l.journal.written + [path] && l'.journal.next == l.journal.next
            && Attempted(s, l) == 0 && Attempted(s, l') == 0
  {
    hide Plan;
  }

  /** The written files hold the edit and the others their old bytes. */
  ghost predicate HoldEdit(s: Secret, w0: World, written: seq<string>, next: string, files: Files)
  {
    && files.Keys == w0.files.Keys
    && (forall p :: p in w0.files && p !in written ==> files[p] == w0.files[p])
    && (forall k :: 0 <= k < |written| ==>
          && written[k] in w0.files && Lookup(w0.files[written[k]], s.envKey).Some?
          && files[written[k]] == Edit(w0.files[written[k]], s.envKey, next))
  }

  lemma NothingUndone(s: Secret, w0: World, l: Local, w: World)
    requires Attempted(s, l) == 0
    ensures FilesInv(s, w0, l, w) <==> HoldEdit(s, w0, l.journal.written, l.journal.next, w.files)
  {
    hide Lookup, Edit, Attempted;
  }

  /** One more of the files holds the edit. */
  lemma MoreWritten(s: Secret, w0: World, written: seq<string>, files: Files, path: string, next: string)
    requires HoldEdit(s, w0, written, next, files) && path in w0.files && path !in written
    requires Lookup(w0.files[path], s.envKey).Some?
    ensures path in files && HoldEdit(s, w0, written + [path], next, files[path := Edit(files[path], s.envKey, next)])
  {
    hide Edit, Lookup;
    assert path in files.Keys;
    assert forall k :: 0 <= k < |written| ==> (written + [path])[k] == written[k] != path;
  }

  lemma FileWrittenKeepsTheRest(s: Secret, w0: World, l: Local, w: World, i: nat, path: string, files: Files)
    requires |s.envFiles| > 0 && JournalInv(s, w0, l) && l.phase == Writing(i)
    requires CellsInv(s, w0, l, w) && LoadedInv(s, w0, l, w) && LogInv(s, w0, l, w)
    requires path in w0.files
    ensures var l' := AfterWrite(s, l, i, path, w0.files[path]);
            && CellsInv(s, w0, l', w.(files := files))
            && LoadedInv(s, w0, l', w.(files := files))
            && LogInv(s, w0, l', w.(files := files))
  {
    hide Lookup, ResolveAdminPassword, Plan, SameElsewhere, SameLoadsElsewhere, RestoreFailedFrom, CellsInv,
      LoadedInv, LogInv, JournalFacts;
    var l' := AfterWrite(s, l, i, path, w0.files[path]);
    assert ServiceStep(s, l.journal) && l.journal.restarted == [] && l.cause == NoCause;
    hide JournalInv;
    WriteKeepsCells(s, w0, l, w, i, path, files);
    WriteKeepsLoads(s, w0, l, w, i, path, files);
  }

  lemma WriteKeepsCells(s: Secret, w0: World, l: Local, w: World, i: nat, path: string, files: Files)
    requires CellsInv(s, w0, l, w) && l.phase == Writing(i) && path in w0.files
    requires ServiceStep(s, l.journal) && l.cause == NoCause
    ensures CellsInv(s, w0, AfterWrite(s, l, i, path, w0.files[path]), w.(files := files))
  {
    hide Plan, SameElsewhere, RestoreFailedFrom;
  }

  lemma WriteKeepsLoads(s: Secret, w0: World, l: Local, w: World, i: nat, path: string, files: Files)
    requires LoadedInv(s, w0, l, w) && LogInv(s, w0, l, w) && l.phase == Writing(i) && path in w0.files
    requires l.journal.restarted == []
    ensures LoadedInv(s, w0, AfterWrite(s, l, i, path, w0.files[path]), w.(files := files))
    ensures LogInv(s, w0, AfterWrite(s, l, i, path, w0.files[path]), w.(files := files))
  {
    hide SameLoadsElsewhere, Plan;
  }

  lemma UnwrittenFile(s: Secret, w0: World, l: Local, w: World, path: string)
    requires FilesInv(s, w0, l, w) && path !in l.journal.written
    ensures path in w.files <==> path in w0.files
    ensures path in w0.files ==> w.files[path] == w0.files[path]
  {
    assert path in w.files.Keys <==> path in w0.files.Keys;
  }

  lemma WriteStepKeepsInv(s: Secret, w0: World, r: State, f: Fate)
    requires ValidSecret(s) && Inv(s, w0, r) && r.local.phase.Writing?
    ensures Inv(s, w0, WriteStep(s, r.local, r.world, f))
  {
    hide Lookup, Edit, StageInv, FilesInv, CellsInv, LoadedInv, LogInv, Compensate, AfterWrite, WithFileWritten;
    var l, w := r.local, r.world;
    NextFileIsUnwritten(s, w0, l);
    var i, path := l.phase.i, s.envFiles[l.phase.i];
    UnwrittenFile(s, w0, l, w, path);
    WriteStepCases(s, l, w, f);
    var before := WriteFile(w.files, path, s.envKey, l.journal.next, f).0;
    if before.None? {
      FailedWriteKeepsInv(s, w0, r);
    } else {
      SucceedingWriteKeepsInv(s, w0, r);
    }
  }

  lemma WriteStepCases(s: Secret, l: Local, w: World, f: Fate)
    requires l.phase.Writing? && l.phase.i < |s.envFiles|
    ensures var i, path := l.phase.i, s.envFiles[l.phase.i];
            var before := WriteFile(w.files, path, s.envKey, l.journal.next, f).0;
            WriteStep(s, l, w, f)
            == if before.None? then State(Compensate(s, l, WriteFailed), w)
               else State(AfterWrite(s, l, i, path, before.value),
                          w.(files := w.files[path := Edit(w.files[path], s.envKey, l.journal.next)]))
    ensures var path := s.envFiles[l.phase.i];
            var before := WriteFile(w.files, path, s.envKey, l.journal.next, f).0;
            before.Some? ==> path in w.files && before.value == w.files[path] && Lookup(w.files[path], s.envKey).Some?
  {
    hide Lookup, Edit, Compensate;
  }

  lemma SucceedingWriteKeepsInv(s: Secret, w0: World, r: State)
    requires ValidSecret(s) && Inv(s, w0, r) && r.local.phase.Writing?
    requires r.local.phase.i < |s.envFiles|
    requires var path := s.envFiles[r.local.phase.i];
             path in w0.files && path in r.world.files && r.world.files[path] == w0.files[path]
               && Lookup(w0.files[path], s.envKey).Some?
    ensures var i, path := r.local.phase.i, s.envFiles[r.local.phase.i];
            Inv(s, w0, State(AfterWrite(s, r.local, i, path, w0.files[path]),
                r.world.(files := r.world.files[path := Edit(r.world.files[path], s.envKey, r.local.journal.next)])))
  {
    hide Lookup, Edit, FilesInv, CellsInv, LoadedInv, LogInv;
    var l, w, i := r.local, r.world, r.local.phase.i;
    var path := s.envFiles[i];
    NextFileIsUnwritten(s, w0, l);
    FileWrittenKeepsJournalInv(s, w0, l, i, path);
    FileWrittenKeepsFilesInv(s, w0, l, w, i, path);
    FileWrittenKeepsTheRest(s, w0, l, w, i, path, w.files[path := Edit(w.files[path], s.envKey, l.journal.next)]);
  }

  lemma RestartKeepsLoads(loaded: Loads, files: Files, names: seq<string>, f: Fate)
    ensures SameLoadsElsewhere(loaded, Restart(loaded, files, names, f).1, names)
    ensures Restart(loaded, files, names, f).0 ==> AllLoaded(Restart(loaded, files, names, f).1, names, files)
  {
    var n := if f.ok || f.reached >= |names| then |names| else f.reached;
    LoadFirstEffect(loaded, files, names, n);
    assert names[..|names|] == names;
    assert forall c :: c !in names ==> c !in names[..n];
  }

  /** The local state after the restart of the pipeline. */
  function AfterRestart(s: Secret, l: Local, ok: bool): Local
  {
    var l' := l.(journal := WithRestarted(l.journal, l.containers));
    if ok then l'.(phase := Recording(Success), journal := WithStep(l'.journal, Done))
    else Compensate(s, l', RestartFailed)
  }

  lemma RestartKeepsJournalInv(s: Secret, w0: World, l: Local, ok: bool)
    requires |s.envFiles| > 0 && JournalInv(s, w0, l) && l.phase == Restarting
    ensures JournalInv(s, w0, AfterRestart(s, l, ok))
    ensures !ok ==> AfterRestart(s, l, ok).phase == Undoing(0)
  {
    hide Lookup, ResolveAdminPassword, FileActions, EndStage;
    RestartIsPlanned(s.kind, WithRestarted(l.journal, l.containers));
    hide Plan;
    if ok {
      RestartedMeansDone(s, l);
    }
  }

  lemma RestartIsPlanned(kind: Kind, j: Journal)
    requires Rank(j.step) >= Rank(Restarted) && |j.restarted| > 0
    ensures |Plan(kind, j)| > 0
  {
    hide FileActions;
  }

  lemma RestartedMeansDone(s: Secret, l: Local)
    requires |l.journal.written| == |s.envFiles| && l.cause == NoCause && l.failed == []
    requires Rank(l.journal.step) < Rank(Restarted)
    ensures EndStage(s, AfterRestart(s, l, true), Success)
  {}

  lemma RestartKeepsTheRest(s: Secret, w0: World, l: Local, w: World, ok: bool, loaded: Loads)
    requires |s.envFiles| > 0 && JournalInv(s, w0, l) && l.phase == Restarting
    requires FilesInv(s, w0, l, w) && CellsInv(s, w0, l, w) && LoadedInv(s, w0, l, w) && LogInv(s, w0, l, w)
    requires SameLoadsElsewhere(w.loaded, loaded, l.containers) && (ok ==> AllLoaded(loaded, l.containers, w.files))
    requires !ok ==> AfterRestart(s, l, ok).phase == Undoing(0)
    ensures var l', w' := AfterRestart(s, l, ok), w.(loaded := loaded);
            FilesInv(s, w0, l', w') && CellsInv(s, w0, l', w') && LoadedInv(s, w0, l', w') && LogInv(s, w0, l', w')
  {
    var l' := AfterRestart(s, l, ok);
    assert Attempted(s, l) == 0 && Attempted(s, l') == 0 && l'.journal.written == l.journal.written;
    assert l'.journal.next == l.journal.next && l'.journal.restarted == l.containers;
    RestartKeepsCells(s, w0, l, w, ok, loaded);
    hide JournalInv, CellsInv, HoldEdit, Plan, SameLoadsElsewhere, AllLoaded;
    NothingUndone(s, w0, l, w);
    NothingUndone(s, w0, l', w.(loaded := loaded));
    hide FilesInv, Attempted;
    RestartKeepsLoadedInv(s, w0, l, w, ok, loaded);
  }

  lemma RestartKeepsCells(s: Secret, w0: World, l: Local, w: World, ok: bool, loaded: Loads)
    requires |s.envFiles| > 0 && JournalInv(s, w0, l) && l.phase == Restarting && CellsInv(s, w0, l, w)
    requires !ok ==> AfterRestart(s, l, ok).phase == Undoing(0)
    ensures CellsInv(s, w0, AfterRestart(s, l, ok), w.(loaded := loaded)) && l.journal.restarted == []
  {
    hide Lookup, Plan, JournalFacts, SameElsewhere, RestoreFailedFrom;
  }

  lemma RestartKeepsLoadedInv(s: Secret, w0: World, l: Local, w: World, ok: bool, loaded: Loads)
    requires l.phase == Restarting && l.journal.restarted == [] && LoadedInv(s, w0, l, w)
    requires SameLoadsElsewhere(w.loaded, loaded, l.containers) && (ok ==> AllLoaded(loaded, l.containers, w.files))
    requires !ok ==> AfterRestart(s, l, ok).phase == Undoing(0)
    ensures LoadedInv(s, w0, AfterRestart(s, l, ok), w.(loaded := loaded))
  {
    hide Plan, AllLoaded;
  }

  lemma RestartStepKeepsInv(s: Secret, w0: World, r: State, f: Fate)
    requires |s.envFiles| > 0 && Inv(s, w0, r) && r.local.phase == Restarting
    ensures Inv(s, w0, RestartStep(s, r.local, r.world, f))
  {
    hide JournalInv, FilesInv, CellsInv, LoadedInv, LogInv, Restart, SameLoadsElsewhere, AllLoaded;
    var l, w := r.local, r.world;
    var (ok, loaded) := Restart(w.loaded, w.files, l.containers, f);
    RestartKeepsLoads(w.loaded, w.files, l.containers, f);
    RestartKeepsJournalInv(s, w0, l, ok);
    RestartKeepsTheRest(s, w0, l, w, ok, loaded);
  }

  /** The local state after undo action j. */
  function AfterUndo(s: Secret, l: Local, j: nat, ok: bool): Local
  {
    var l' := if ok then l else l.(failed := l.failed + [j]);
    l'.(phase := UndoFrom(s.kind, l', j + 1))
  }

  lemma UndoAttempts(s: Secret, l: Local, j: nat, ok: bool)
    requires l.phase == Undoing(j) && j < |Plan(s.kind, l.journal)|
    ensures Attempted(s, AfterUndo(s, l, j, ok)) == j + 1
    ensures forall k :: k != j ==> (k in AfterUndo(s, l, j, ok).failed <==> k in l.failed)
    ensures j in AfterUndo(s, l, j, ok).failed <==> !ok || j in l.failed
  {
    hide Plan;
  }

  lemma CompensatedCause(s: Secret, cause: Cause, j: Journal, containers: seq<string>)
    ensures UndoStage(s, cause, j, containers) ==> cause != GenerateFailed && cause != NoCause
  {}

  lemma UndoKeepsStage(s: Secret, l: Local, j: nat, ok: bool)
    requires StageInv(s, l) && l.phase == Undoing(j)
    ensures StageInv(s, AfterUndo(s, l, j, ok)) && !Untouched(AfterUndo(s, l, j, ok).phase)
  {
    CompensatedCause(s, l.cause, l.journal, l.containers);
    hide Plan, UndoStage;
  }

  lemma UndoKeepsJournalInv(s: Secret, w0: World, l: Local, j: nat, ok: bool)
    requires |s.envFiles| > 0 && JournalInv(s, w0, l) && l.phase == Undoing(j)
    ensures JournalInv(s, w0, AfterUndo(s, l, j, ok))
  {
    UndoAttempts(s, l, j, ok);
    UndoKeepsStage(s, l, j, ok);
    hide JournalFacts, StageInv, Plan, Attempted, Untouched;
  }

  /** What is known about the plan while it is being carried out. */
  lemma UndoPosition(s: Secret, w0: World, l: Local, j: nat)
    requires |s.envFiles| > 0 && JournalInv(s, w0, l) && l.phase == Undoing(j)
    ensures var n, r, plan := |l.journal.written|, |RestartActions(l.journal)|, Plan(s.kind, l.journal);
            && j < |plan| <= n + r + 1
            && (j < n ==> l.journal.written[j] in w0.files
                          && plan[j] == RestoreFileAction(l.journal.written[j], w0.files[l.journal.written[j]]))
            && (n <= j < n + r ==> r == 1 && plan[j] == RestartAction(l.journal.restarted))
            && (n + r <= j ==> j == n + r && WasApplied(s, l.journal) && plan[j] == RestoreCredentialAction)
    ensures Rank(l.journal.step) >= Rank(Generated) && j !in l.failed
    ensures |RestartActions(l.journal)| == 1 <==> l.journal.restarted != []
    ensures Distinct(s.envFiles) ==> Distinct(l.journal.written)
  {
    hide Lookup, ResolveAdminPassword, FileActions, Plan;
    UndoingStage(s, l, j);
    hide StageInv, UndoStage;
    PlanAt(s.kind, l.journal);
    assert forall k :: k in l.failed ==> k < j;
  }

  lemma UndoingStage(s: Secret, l: Local, j: nat)
    requires StageInv(s, l) && l.phase == Undoing(j)
    ensures j < |Plan(s.kind, l.journal)| && Rank(l.journal.step) >= Rank(Generated)
    ensures l.journal.restarted != [] ==> l.journal.step == Restarted
  {
    hide FileActions, Plan;
  }

  /** An undo action that leaves the files alone leaves their invariant alone. */
  lemma UndoFrame(s: Secret, w0: World, l: Local, w: World, j: nat, ok: bool, w': World)
    requires l.phase == Undoing(j) && j < |Plan(s.kind, l.journal)|
    requires FilesInv(s, w0, l, w) && w'.files == w.files && j >= |l.journal.written|
    ensures FilesInv(s, w0, AfterUndo(s, l, j, ok), w')
  {
    hide Lookup, Edit, Plan;
    UndoAttempts(s, l, j, ok);
  }

  lemma UndoFileKeepsFilesInv(s: Secret, w0: World, l: Local, w: World, j: nat, f: Fate)
    requires l.phase == Undoing(j) && j < |Plan(s.kind, l.journal)|
    requires FilesInv(s, w0, l, w) && j < |l.journal.written| && Distinct(l.journal.written) && j !in l.failed
    ensures var path := l.journal.written[j];
            path in w0.files &&
            var (ok, files) := RestoreFile(w.files, path, w0.files[path], f);
            FilesInv(s, w0, AfterUndo(s, l, j, ok), w.(files := files))
  {
    hide Lookup, Edit, Plan;
    var path := l.journal.written[j];
    var (ok, files) := RestoreFile(w.files, path, w0.files[path], f);
    UndoAttempts(s, l, j, ok);
    assert path in w.files.Keys;
    assert files.Keys == w.files.Keys;
  }

  lemma UndoLogInv(s: Secret, w0: World, l: Local, w: World, j: nat, ok: bool, w': World)
    requires l.phase == Undoing(j) && LogInv(s, w0, l, w) && w'.log == w.log
    ensures LogInv(s, w0, AfterUndo(s, l, j, ok), w')
  {}

  lemma UndoCells(s: Secret, w0: World, l: Local, w: World, j: nat, ok: bool, w': World)
    requires l.phase == Undoing(j) && j < |Plan(s.kind, l.journal)|
    requires CellsInv(s, w0, l, w)
    requires j < CredentialAt(l.journal) || !WasApplied(s, l.journal) ==> w'.cells == w.cells
    requires j >= CredentialAt(l.journal) ==>
               && j == CredentialAt(l.journal)
               && SameElsewhere(w.cells, w'.cells, Owner(s))
               && j !in l.failed && WasApplied(s, l.journal)
               && (if ok then w'.cells == w.cells[Owner(s) := Cell(l.journal.previous, l.journal.previous)]
                   else RestoreFailedFrom(s.kind, w.cells, Owner(s), l.journal.previous, w'.cells))
    ensures CellsInv(s, w0, AfterUndo(s, l, j, ok), w')
  {
    hide Plan, RestoreFailedFrom;
    UndoAttempts(s, l, j, ok);
  }

  lemma UndoLoads(s: Secret, w0: World, l: Local, w: World, j: nat, ok: bool, w': World)
    requires l.phase == Undoing(j) && j < |Plan(s.kind, l.journal)|
    requires LoadedInv(s, w0, l, w) && j !in l.failed
    requires w'.files != w.files ==> j < |l.journal.written|
    requires j != |l.journal.written| || l.journal.restarted == [] ==> w'.loaded == w.loaded
    requires SameLoadsElsewhere(w.loaded, w'.loaded, l.journal.restarted)
    requires j == |l.journal.written| && l.journal.restarted != [] && ok ==>
               AllLoaded(w'.loaded, l.journal.restarted, w'.files)
    ensures LoadedInv(s, w0, AfterUndo(s, l, j, ok), w')
  {
    hide Plan;
    UndoAttempts(s, l, j, ok);
  }

  lemma UndoStepKeepsInv(s: Secret, w0: World, r: State, f: Fate)
    requires ValidSecret(s) && Inv(s, w0, r) && r.local.phase.Undoing?
    ensures Inv(s, w0, UndoStep(s, r.local, r.world, f))
  {
    hide JournalInv, FilesInv, CellsInv, LoadedInv, LogInv, Restart, RestoreFile, Restore, Plan, SameElsewhere,
      SameLoadsElsewhere, AllLoaded, ValidKey, RestoreFailedFrom;
    var l, w, j := r.local, r.world, r.local.phase.j;
    UndoPosition(s, w0, l, j);
    var action := Plan(s.kind, l.journal)[j];
    var (ok, w') := UndoAction(s, l, w, action, f);
    UndoKeepsJournalInv(s, w0, l, j, ok);
    UndoLogInv(s, w0, l, w, j, ok, w');
    SameLoads(w.loaded, l.journal.restarted);
    if j < |l.journal.written| {
      UndoFileKeepsFilesInv(s, w0, l, w, j, f);
      UndoCells(s, w0, l, w, j, ok, w');
      UndoLoads(s, w0, l, w, j, ok, w');
    } else {
      UndoFrame(s, w0, l, w, j, ok, w');
      if action.RestartAction? {
        RestartKeepsLoads(w.loaded, w.files, l.journal.restarted, f);
        UndoCells(s, w0, l, w, j, ok, w');
        UndoLoads(s, w0, l, w, j, ok, w');
      } else {
        RestoredOwner(s, w0, l, w.cells, f);
        UndoCells(s, w0, l, w, j, ok, w');
        UndoLoads(s, w0, l, w, j, ok, w');
      }
    }
  }

  lemma SameLoads(loaded: Loads, names: seq<string>)
    ensures SameLoadsElsewhere(loaded, loaded, names)
  {}

  lemma RestoredOwner(s: Secret, w0: World, l: Local, cells: Cells, f: Fate)
    requires |s.envFiles| > 0 && JournalInv(s, w0, l) && WasApplied(s, l.journal)
    ensures var (ok, cells') := Restore(s.kind, l.target, cells, l.journal.previous, l.journal.next, f);
            && SameElsewhere(cells, cells', Owner(s))
            && (if ok then cells' == cells[Owner(s) := Cell(l.journal.previous, l.journal.previous)]
                else RestoreFailedFrom(s.kind, cells, Owner(s), l.journal.previous, cells'))
  {
    hide Lookup, Restore, ResolveAdminPassword, RestoreFailedFrom;
    ResolvedOwner(s, w0.files[Primary(s)], l.journal.previous);
    if !Restore(s.kind, l.target, cells, l.journal.previous, l.journal.next, f).0 {
      FailedRestoreEffect(s.kind, l.target, cells, l.journal.previous, l.journal.next, f);
    }
    RestoreEffect(s.kind, l.target, cells, l.journal.previous, l.journal.next, f);
  }

  /** Every step of the pipeline and of its undo keeps the invariant. */
  lemma StepKeepsInv(s: Secret, w0: World, r: State, f: Fate)
    requires ValidSecret(s) && Inv(s, w0, r)
    ensures Inv(s, w0, Step(s, r, f))
  {
    hide Inv, ReadStep, GenerateStep, ApplyStep, VerifyStep, WriteStep, RestartStep, UndoStep, RecordStep;
    match r.local.phase
    case Looking => LookStepKeepsInv(s, w0, r, f);
    case Resolving => LookStepKeepsInv(s, w0, r, f);
    case Reading => ReadStepKeepsInv(s, w0, r, f);
    case Generating => GenerateStepKeepsInv(s, w0, r, f);
    case Applying => ApplyStepKeepsInv(s, w0, r, f);
    case Verifying => VerifyStepKeepsInv(s, w0, r, f);
    case Writing(_) => WriteStepKeepsInv(s, w0, r, f);
    case Restarting => RestartStepKeepsInv(s, w0, r, f);
    case Undoing(_) => UndoStepKeepsInv(s, w0, r, f);
    case Recording(_) => RecordStepKeepsInv(s, w0, r, f);
    case Finished(_) =>
  }

  /** The invariant holds in every reachable state, under every fault schedule. */
  lemma {:induction false} RunKeepsInv(s: Secret, w0: World, fates: seq<Fate>)
    requires ValidSecret(s)
    ensures Inv(s, w0, Run(s, w0, fates))
  {
    hide Step, Lookup, Edit;
    if fates != [] {
      RunKeepsInv(s, w0, fates[..|fates|-1]);
      StepKeepsInv(s, w0, Run(s, w0, fates[..|fates|-1]), fates[|fates|-1]);
    }
  }
}