/** The read-only twin of a rotation, and its agreement with the real run. */
module DryRun {
  import opened Text
  import opened EnvFiles
  import opened Domain
  import opened Rotations
  import opened Saga
  import opened Guarantees

  /** One planned step; `subject` is the file or container it is about. */
  datatype Planned = Planned(step: StepName, subject: string)

  /** What a dry run shows. */
  datatype RotationPlan = RotationPlan(containers: seq<string>, actions: seq<Planned>)

  function OnEach(step: StepName, subjects: seq<string>): (actions: seq<Planned>)
    ensures |actions| == |subjects|
    ensures forall i :: 0 <= i < |subjects| ==> actions[i] == Planned(step, subjects[i])
  {
    seq(|subjects|, i requires 0 <= i < |subjects| => Planned(step, subjects[i]))
  }

  function ServiceActions(s: Secret): seq<Planned>
  {
    if HasBackingService(s.kind) then [Planned(Applied, ""), Planned(Verified, "")] else [Planned(Applied, "")]
  }

  function PlannedActions(s: Secret, containers: seq<string>): seq<Planned>
    requires |s.envFiles| > 0
  {
    var head := [Planned(Read, Primary(s)), Planned(Generated, "")] + ServiceActions(s);
    head + OnEach(FilesUpdated, s.envFiles)
    + (if containers == [] then [Planned(Restarted, "")] else OnEach(Restarted, containers))
    + [Planned(Done, "")]
  }

  /** The subjects of the steps of one kind, in order. */
  function Subjects(actions: seq<Planned>, step: StepName): seq<string>
  {
    if actions == [] then []
    else
      var init := Subjects(actions[..|actions|-1], step);
      var last := actions[|actions|-1];
      if last.step == step then init + [last.subject] else init
  }

  /** Appends one step per subject. */
  method AddEach(actions: seq<Planned>, step: StepName, subjects: seq<string>) returns (more: seq<Planned>)
    ensures more == actions + OnEach(step, subjects)
  {
    more := actions;
    for i := 0 to |subjects|
      invariant more == actions + OnEach(step, subjects)[..i]
    {
      more := more + [Planned(step, subjects[i])];
    }
  }

  /** Builds the plan from the answers of the registry, of the file and of the
      fleet.  It only reads. */
  method Build(s: Secret, files: Files, registry: Fate, file: Fate, fleet: Fate) returns (plan: Option<RotationPlan>)
    requires ValidSecret(s)
    ensures plan.Some? <==>
              && registry.ok && file.ok && fleet.ok
              && Primary(s) in files && Lookup(files[Primary(s)], s.envKey).Some?
    ensures plan.Some? ==> plan.value == RotationPlan(fleet.names, PlannedActions(s, fleet.names))
  {
    hide Lookup, ValidKey, OnEach;
    if !registry.ok {
      return None;
    }
    if !file.ok || s.envFiles[0] !in files {
      return None;
    }
    if Lookup(files[s.envFiles[0]], s.envKey).None? {
      return None;
    }
    if !fleet.ok {
      return None;
    }
    var actions := [Planned(Read, s.envFiles[0]), Planned(Generated, "")];
    if HasBackingService(s.kind) {
      actions := actions + [Planned(Applied, ""), Planned(Verified, "")];
    } else {
      actions := actions + [Planned(Applied, "")];
    }
    actions := AddEach(actions, FilesUpdated, s.envFiles);
    if |fleet.names| == 0 {
      actions := actions + [Planned(Restarted, "")];
    } else {
      actions := AddEach(actions, Restarted, fleet.names);
    }
    actions := actions + [Planned(Done, "")];
    plan := Some(RotationPlan(fleet.names, actions));
  }

  // ---------------------------------------------------------------- what the plan names

  lemma SubjectsConcat(a: seq<Planned>, b: seq<Planned>, step: StepName)
    ensures Subjects(a + b, step) == Subjects(a, step) + Subjects(b, step)
  {
    if b == [] {
      assert a + b == a;
    } else {
      var init := b[..|b|-1];
      SubjectsConcat(a, init, step);
      assert (a + b)[..|a + b|-1] == a + init;
    }
  }

  lemma {:induction false} SubjectsOnEach(step: StepName, subjects: seq<string>, other: StepName)
    ensures Subjects(OnEach(step, subjects), other) == if step == other then subjects else []
  {
    if subjects != [] {
      var init := subjects[..|subjects|-1];
      SubjectsOnEach(step, init, other);
      assert OnEach(step, subjects)[..|subjects|-1] == OnEach(step, init);
    }
  }

  lemma SubjectsOne(p: Planned, step: StepName)
    ensures Subjects([p], step) == if p.step == step then [p.subject] else []
  {
    assert [p][..0] == [];
  }

  /** The steps come in the order of the pipeline. */
  lemma PlanIsInOrder(s: Secret, containers: seq<string>, i: nat, j: nat)
    requires |s.envFiles| > 0 && i < j < |PlannedActions(s, containers)|
    ensures var plan := PlannedActions(s, containers); Rank(plan[i].step) <= Rank(plan[j].step)
  {}

  /** The other steps are there once each; verifying is for kinds with a service
      only, and a plan without containers says so in one step. */
  lemma PlanHasEachStep(s: Secret, containers: seq<string>, step: StepName)
    requires |s.envFiles| > 0
    ensures Subjects(PlannedActions(s, containers), step)
         == match step
            case Pending => []
            case Read => [s.envFiles[0]]
            case Generated => [""]
            case Applied => [""]
            case Verified => if s.kind == Generic then [] else [""]
            case FilesUpdated => s.envFiles
            case Restarted => if containers == [] then [""] else containers
            case Done => [""]
  {
    hide OnEach, Subjects;
    var head := [Planned(Read, Primary(s)), Planned(Generated, "")] + ServiceActions(s);
    var files := OnEach(FilesUpdated, s.envFiles);
    var restarts := if containers == [] then [Planned(Restarted, "")] else OnEach(Restarted, containers);
    SubjectsConcat(head, files, step);
    SubjectsConcat(head + files, restarts, step);
    SubjectsConcat(head + files + restarts, [Planned(Done, "")], step);
    HeadSubjects(s, step);
    SubjectsOnEach(FilesUpdated, s.envFiles, step);
    SubjectsOnEach(Restarted, containers, step);
    SubjectsOne(Planned(Restarted, ""), step);
    SubjectsOne(Planned(Done, ""), step);
  }

  lemma HeadSubjects(s: Secret, step: StepName)
    requires |s.envFiles| > 0
    ensures Subjects([Planned(Read, Primary(s)), Planned(Generated, "")] + ServiceActions(s), step)
         == if step == Read then [Primary(s)]
            else if step == Generated || step == Applied then [""]
            else if step == Verified && HasBackingService(s.kind) then [""]
            else []
  {
    hide Subjects;
    var a, b := Planned(Read, Primary(s)), Planned(Generated, "");
    var c, d := Planned(Applied, ""), Planned(Verified, "");
    SubjectsConcat([a, b], ServiceActions(s), step);
    SubjectsConcat([a], [b], step);
    SubjectsConcat([c], [d], step);
    assert [a, b] == [a] + [b] && [c, d] == [c] + [d];
    SubjectsOne(a, step);
    SubjectsOne(b, step);
    SubjectsOne(c, step);
    SubjectsOne(d, step);
  }

  /** The plan names every env file and every container, in order and once each. */
  lemma PlanNamesFilesAndContainers(s: Secret, containers: seq<string>)
    requires |s.envFiles| > 0
    ensures Subjects(PlannedActions(s, containers), FilesUpdated) == s.envFiles
    ensures containers != [] ==> Subjects(PlannedActions(s, containers), Restarted) == containers
  {
    hide Subjects, PlannedActions;
    PlanHasEachStep(s, containers, FilesUpdated);
    PlanHasEachStep(s, containers, Restarted);
  }

  // ---------------------------------------------------------------- agreement with the real run

  /** From the same answers, the dry run succeeds exactly when the real run
      gets past its read-only checks, although the two ask in another order. */
  lemma BuildAgreesWithChecks(s: Secret, w0: World, registry: Fate, file: Fate, fleet: Fate)
    requires ValidSecret(s)
    ensures Run(s, w0, [registry, fleet, file]).local.phase == Generating
            <==> && registry.ok && file.ok && fleet.ok
                 && Primary(s) in w0.files && Lookup(w0.files[Primary(s)], s.envKey).Some?
    ensures Run(s, w0, [registry, fleet, file]).local.phase == Generating
            || Run(s, w0, [registry, fleet, file]).local.phase == Finished(Refused)
    ensures Run(s, w0, [registry, fleet, file]).world == w0
  {
    hide Lookup, ResolveAdminPassword, ValidKey;
    var a, b, c := [registry], [registry, fleet], [registry, fleet, file];
    assert a[..0] == [] && b[..1] == a && c[..2] == b;
    assert Run(s, w0, a) == Step(s, Run(s, w0, []), registry);
    assert Run(s, w0, b) == Step(s, Run(s, w0, a), fleet);
  }

  /** What the world must offer for a run without faults that generates this
      value: every env file holds the key, not only the primary one the dry run
      looks at; the service accepts the credential the rotation connects with;
      and on Redis the user connected as can log in once the default user's
      password is the new value, so it is that user or has the value already. */
  ghost predicate Prepared(s: Secret, w0: World, next: string)
    requires |s.envFiles| > 0
  {
    && (forall p :: p in s.envFiles ==> p in w0.files && Lookup(w0.files[p], s.envKey).Some?)
    && (HasBackingService(s.kind) && s.kind != Command ==>
          var doc, admin := w0.files[Primary(s)], AdminAccount(s.kind, s.target);
          var t := ResolveAdminPassword(s.target, doc, Lookup(doc, s.envKey).value);
          && Owner(s) in w0.cells && Accepts(w0.cells, admin, t.adminPassword)
          && (s.kind == Redis ==> Accepts(w0.cells[Owner(s) := Cell(next, next)], admin, next)))
  }

  /** Where a run without faults over a prepared world can be. */
  ghost predicate OnTrack(s: Secret, r: State)
  {
    r.local.cause == NoCause && !r.local.phase.Undoing? && !Ended(r.local.phase, Refused)
      && !EndedInFailure(r.local.phase)
  }

  lemma FaultFreeStepStaysOnTrack(s: Secret, w0: World, next: string, r: State, f: Fate)
    requires ValidSecret(s) && Prepared(s, w0, next) && Inv(s, w0, r) && OnTrack(s, r) && FaultFree(f)
    requires r.local.phase == Verifying ==> r.local.journal.next == next
    ensures OnTrack(s, Step(s, r, f))
  {
    match r.local.phase {
      case Applying => ApplyStaysOnTrack(s, w0, next, r, f);
      case Verifying => VerifyStaysOnTrack(s, w0, next, r, f);
      case Writing(_) => WriteStaysOnTrack(s, w0, next, r, f);
      case Reading => ReadStaysOnTrack(s, w0, next, r, f);
      case _ => EarlyStaysOnTrack(s, r, f);
    }
  }

  lemma ReadStaysOnTrack(s: Secret, w0: World, next: string, r: State, f: Fate)
    requires |s.envFiles| > 0 && Prepared(s, w0, next) && Inv(s, w0, r) && OnTrack(s, r) && FaultFree(f)
    requires r.local.phase == Reading
    ensures OnTrack(s, Step(s, r, f))
  {
    hide Lookup, Edit, ResolveAdminPassword, Inv, FilesInv;
    assert Primary(s) in s.envFiles;
    PrimaryIsUnwritten(s, w0, r);
    hide Prepared, AdminAccount, ApplyStep, VerifyStep, WriteStep, RestartStep, UndoStep, RecordStep;
  }

  lemma PrimaryIsUnwritten(s: Secret, w0: World, r: State)
    requires |s.envFiles| > 0 && Inv(s, w0, r) && r.local.phase == Reading && Primary(s) in w0.files
    ensures Primary(s) in r.world.files && r.world.files[Primary(s)] == w0.files[Primary(s)]
  {
    hide Lookup, Edit, FilesInv, CellsInv, LoadedInv, LogInv;
    UnwrittenFile(s, w0, r.local, r.world, Primary(s));
  }

  lemma EarlyStaysOnTrack(s: Secret, r: State, f: Fate)
    requires |s.envFiles| > 0 && OnTrack(s, r) && FaultFree(f)
    requires r.local.phase != Reading && r.local.phase != Applying && r.local.phase != Verifying
    requires !r.local.phase.Writing?
    ensures OnTrack(s, Step(s, r, f))
  {
    hide Lookup, Edit, Plan;
  }

  lemma ApplyStaysOnTrack(s: Secret, w0: World, next: string, r: State, f: Fate)
    requires |s.envFiles| > 0 && Prepared(s, w0, next) && Inv(s, w0, r) && OnTrack(s, r) && FaultFree(f)
    requires r.local.phase == Applying
    ensures OnTrack(s, Step(s, r, f))
  {
    hide Lookup, Edit, ResolveAdminPassword, Plan, FilesInv, LoadedInv, LogInv;
    var l := r.local;
    ResolvedOwner(s, w0.files[Primary(s)], l.journal.previous);
    assert Primary(s) in s.envFiles;
  }

  lemma VerifyStaysOnTrack(s: Secret, w0: World, next: string, r: State, f: Fate)
    requires |s.envFiles| > 0 && Prepared(s, w0, next) && Inv(s, w0, r) && OnTrack(s, r) && FaultFree(f)
    requires r.local.phase == Verifying && r.local.journal.next == next
    ensures OnTrack(s, Step(s, r, f))
  {
    hide Lookup, Edit, ResolveAdminPassword, Plan, FilesInv, LoadedInv, LogInv, RestoreFailedFrom;
    ResolvedOwner(s, w0.files[Primary(s)], r.local.journal.previous);
    assert Primary(s) in s.envFiles;
  }

  lemma WriteStaysOnTrack(s: Secret, w0: World, next: string, r: State, f: Fate)
    requires ValidSecret(s) && Prepared(s, w0, next) && Inv(s, w0, r) && OnTrack(s, r) && FaultFree(f)
    requires r.local.phase.Writing?
    ensures OnTrack(s, Step(s, r, f))
  {
    NextFileIsUnwritten(s, w0, r.local);
    var path := s.envFiles[r.local.phase.i];
    UnwrittenFile(s, w0, r.local, r.world, path);
    assert path in s.envFiles;
    PossibleWriteStaysOnTrack(s, r, f);
    hide *;
  }

  lemma PossibleWriteStaysOnTrack(s: Secret, r: State, f: Fate)
    requires |s.envFiles| > 0 && OnTrack(s, r) && r.local.phase.Writing? && f.ok && r.local.phase.i < |s.envFiles|
    requires var path := s.envFiles[r.local.phase.i];
             path in r.world.files && Lookup(r.world.files[path], s.envKey).Some?
    ensures OnTrack(s, Step(s, r, f))
  {
    hide Lookup, Edit;
  }

  lemma {:induction false} FaultFreeRunStaysOnTrack(s: Secret, w0: World, next: string, fates: seq<Fate>)
    requires ValidSecret(s) && Prepared(s, w0, next) && AllFaultFree(fates)
    requires |fates| > 3 ==> fates[3].text == next
    ensures OnTrack(s, Run(s, w0, fates))
  {
    hide Step, Inv, Prepared, ValidKey;
    if fates != [] {
      var init := fates[..|fates|-1];
      FaultFreeRunStaysOnTrack(s, w0, next, init);
      RunKeepsInv(s, w0, init);
      RunKeepsNextTrace(s, w0, init);
      FaultFreeStepStaysOnTrack(s, w0, next, Run(s, w0, init), fates[|fates|-1]);
    }
  }

  /** A run that meets no fault succeeds exactly when the world is prepared for
      the value it generates; then it writes exactly the planned files and
      restarts exactly the planned containers, in the planned order. */
  lemma FaultFreeRunFollowsThePlan(s: Secret, w0: World, fates: seq<Fate>)
    requires ValidSecret(s) && |fates| >= 2 * |s.envFiles| + 12
    requires AllFaultFree(fates)
    ensures Run(s, w0, fates).local.phase == Finished(Success) <==> Prepared(s, w0, fates[3].text)
    ensures Prepared(s, w0, fates[3].text) ==>
              var r := Run(s, w0, fates);
              var plan := PlannedActions(s, r.local.containers);
              && r.local.journal.written == Subjects(plan, FilesUpdated)
              && (r.local.containers != [] ==> r.local.journal.restarted == Subjects(plan, Restarted))
              && (r.local.containers == [] ==> r.local.journal.restarted == [])
  {
    hide Run, Prepared, OnTrack, Inv, AppliedOverConnection, PlannedActions, Subjects, ValidSecret;
    HasFiles(s);
    var r, next := Run(s, w0, fates), fates[3].text;
    RunFinishes(s, w0, fates);
    RunKeepsInv(s, w0, fates);
    RunKeepsConnection(s, w0, fates);
    RunKeepsNextTrace(s, w0, fates);
    PlanNamesFilesAndContainers(s, r.local.containers);
    if Prepared(s, w0, next) {
      FaultFreeRunStaysOnTrack(s, w0, next, fates);
      OnTrackMeansSuccess(s, w0, r);
    }
    if r.local.phase == Finished(Success) {
      SuccessWasPrepared(s, w0, r);
    }
  }

  lemma OnTrackMeansSuccess(s: Secret, w0: World, r: State)
    requires |s.envFiles| > 0 && Inv(s, w0, r) && OnTrack(s, r) && r.local.phase.Finished?
    ensures r.local.phase == Finished(Success)
    ensures r.local.journal.written == s.envFiles && r.local.journal.restarted == r.local.containers
  {
    hide Lookup, Edit, ResolveAdminPassword, Plan, FilesInv, CellsInv, LoadedInv, LogInv;
  }

  lemma SuccessWasPrepared(s: Secret, w0: World, r: State)
    requires |s.envFiles| > 0 && Inv(s, w0, r) && r.local.phase == Finished(Success)
    requires AppliedOverConnection(s, w0, r.local)
    ensures Prepared(s, w0, r.local.journal.next) && r.local.cause == NoCause
  {
    hide Lookup, Edit, ResolveAdminPassword;
    assert r.local.cause == NoCause;
    hide Inv;
    FilesWerePrepared(s, w0, r);
    ReadState(s, w0, r);
  }

  lemma FilesWerePrepared(s: Secret, w0: World, r: State)
    requires |s.envFiles| > 0 && Inv(s, w0, r) && r.local.phase == Finished(Success)
    ensures forall p :: p in s.envFiles ==> p in w0.files && Lookup(w0.files[p], s.envKey).Some?
  {
    hide Lookup, Edit, Inv;
    SuccessfulState(s, w0, r);
  }
}
