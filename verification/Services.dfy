/** What the rotators promise about the servers they change. */
module Services {
  import opened Text
  import opened EnvFiles
  import opened Domain
  import opened Rotations
  import opened Saga
  import opened Guarantees

  /** A server that restarts reads its password back from disk. */
  function Rebooted(cells: Cells, a: Account): Cells
    requires a in cells
  {
    cells[a := Cell(cells[a].disk, cells[a].disk)]
  }

  /** Redis keeps memory and disk together: after an Apply or a Restore that
      reports success a server restart changes nothing, whatever the two copies
      held before, and the password in force is the one asked for. */
  lemma RedisSuccessSurvivesReboot(t: Target, cells: Cells, previous: string, next: string, f: Fate)
    ensures var a, (ok, cells') := TargetAccount(Redis, t), RedisApply(t, cells, next, f);
            ok ==> a in cells' && Rebooted(cells', a) == cells' && Accepts(cells', a, next)
    ensures var a, (ok, cells') := TargetAccount(Redis, t), RedisRestore(t, cells, previous, next, f);
            ok ==> a in cells' && Rebooted(cells', a) == cells' && Accepts(cells', a, previous)
  {
    var a := TargetAccount(Redis, t);
    var applied, restored := RedisApply(t, cells, next, f), RedisRestore(t, cells, previous, next, f);
    assert applied.0 ==> applied.1[a := Cell(next, next)] == applied.1;
    assert restored.0 ==> restored.1[a := Cell(previous, previous)] == restored.1;
  }

  /** A failing Apply of the default user whose revert works leaves both
      copies as they were. */
  lemma RedisRevertRestoresBothCopies(t: Target, cells: Cells, next: string, f: Fate)
    requires AdminAccount(Redis, t) == TargetAccount(Redis, t)
    requires !RedisApply(t, cells, next, f).0 && f.reverts
    ensures RedisApply(t, cells, next, f).1 == cells
  {
    var a := TargetAccount(Redis, t);
    if Accepts(cells, a, t.adminPassword) {
      assert cells[a := Cell(t.adminPassword, cells[a].disk)] == cells;
    }
  }

  /** What a Redis call leaves when the rewrite fails after the set, which a
      server restart would then undo: the password set last is in force, the one
      on disk stays.  An Apply ends on the new password, or on the admin password
      if it can take it back; a Restore ends on the previous one. */
  lemma FailedRewriteLeaves(t: Target, cells: Cells, previous: string, next: string, f: Fate)
    requires f.sets && !f.persists && TargetAccount(Redis, t) in cells
    ensures var a, admin, (ok, cells') := TargetAccount(Redis, t), AdminAccount(Redis, t),
                                          RedisApply(t, cells, next, f);
            Accepts(cells, admin, t.adminPassword) ==>
              && !ok && SameElsewhere(cells, cells', a) && a in cells' && cells'[a].disk == cells[a].disk
              && (admin == a ==> Accepts(cells', a, if f.reverts then t.adminPassword else next))
              && (admin != a ==>
                    Accepts(cells', a, if f.reverts && t.adminPassword == next then t.adminPassword else next))
    ensures var a, admin, (ok, cells') := TargetAccount(Redis, t), AdminAccount(Redis, t),
                                          RedisRestore(t, cells, previous, next, f);
            (f.connects && Accepts(cells, admin, previous)) || (f.reconnects && Accepts(cells, admin, next)) ==>
              !ok && SameElsewhere(cells, cells', a) && Accepts(cells', a, previous) && cells'[a].disk == cells[a].disk
  {}

  // ---------------------------------------------------------------- the unreported stray password

  /** When CONFIG REWRITE and the revert both fail, the error is reported as a
      clean rollback: nothing was journalled, so nothing is undone. */
  lemma DoubleFaultGoesUnreported(s: Secret, w0: World, fates: seq<Fate>, f: Fate, record: Fate)
    requires ValidSecret(s) && s.kind == Redis
    requires Run(s, w0, fates).local.phase == Applying
    requires LeavesStray(Redis, Run(s, w0, fates).local.target, w0.cells, Run(s, w0, fates).local.journal.next, f)
    ensures Run(s, w0, fates + [f] + [record]).local.phase == Finished(RolledBack)
    ensures Run(s, w0, fates + [f] + [record]).world.files == w0.files
    ensures Run(s, w0, fates + [f] + [record]).world.cells != w0.cells
  {
    hide Run, Inv, Step, Plan, Apply, LeavesStray, ValidSecret;
    HasFiles(s);
    RunKeepsInv(s, w0, fates);
    var r := Run(s, w0, fates);
    StrayMeansFailed(r.local.target, w0.cells, r.local.journal.next, f);
    FailedApplyEffect(Redis, r.local.target, w0.cells, r.local.journal.next, f);
    ApplyingHasNoPlan(s, w0, r);
    RunSnoc(s, w0, fates, f);
    FailedApplyStep(s, r, f);
    RunSnoc(s, w0, fates + [f], record);
    RecordingStep(s, Step(s, r, f), record);
  }

  lemma StrayMeansFailed(t: Target, cells: Cells, next: string, f: Fate)
    requires LeavesStray(Redis, t, cells, next, f)
    ensures !Apply(Redis, t, cells, next, f).0
  {}

  lemma FailedApplyStep(s: Secret, r: State, f: Fate)
    requires |s.envFiles| > 0 && r.local.phase == Applying && r.local.failed == []
    requires Plan(s.kind, r.local.journal) == []
    requires !Apply(s.kind, r.local.target, r.world.cells, r.local.journal.next, f).0
    ensures Step(s, r, f).local.phase == Recording(RolledBack)
    ensures Step(s, r, f).world.files == r.world.files
    ensures Step(s, r, f).world.cells == Apply(s.kind, r.local.target, r.world.cells, r.local.journal.next, f).1
  {
    hide Apply, Plan;
  }

  lemma RecordingStep(s: Secret, r: State, f: Fate)
    requires |s.envFiles| > 0 && r.local.phase.Recording?
    ensures Step(s, r, f).local.phase == Finished(r.local.phase.outcome)
    ensures Step(s, r, f).world.files == r.world.files && Step(s, r, f).world.cells == r.world.cells
  {}

  lemma ApplyingHasNoPlan(s: Secret, w0: World, r: State)
    requires |s.envFiles| > 0 && Inv(s, w0, r) && r.local.phase == Applying
    ensures Plan(s.kind, r.local.journal) == [] && r.local.failed == []
    ensures r.world.cells == w0.cells && r.world.files == w0.files
  {
    hide Lookup, Edit, ResolveAdminPassword, LoadedInv, LogInv;
    assert forall p :: p in w0.files ==> p in r.world.files.Keys && r.world.files[p] == w0.files[p];
    assert r.world.files == w0.files;
  }

  /** Four answers without fault lead to the Apply. */
  lemma ReachApplying(s: Secret, w0: World, current: string, fates: seq<Fate>)
    requires ValidSecret(s) && HasBackingService(s.kind) && Primary(s) in w0.files
    requires Lookup(w0.files[Primary(s)], s.envKey) == Some(current)
    requires |fates| >= 4 && forall k :: 0 <= k < 4 ==> fates[k].ok
    ensures var r := Run(s, w0, fates[..4]);
            && r.local.phase == Applying && r.local.journal.next == fates[3].text && r.world == w0
            && r.local.target == ResolveAdminPassword(s.target, w0.files[Primary(s)], current)
  {
    hide Run, Step, Lookup, ResolveAdminPassword, ValidSecret, Start;
    HasFiles(s);
    RunNothing(s, w0, fates);
    RunTake(s, w0, fates, 0);
    RunTake(s, w0, fates, 1);
    RunTake(s, w0, fates, 2);
    RunTake(s, w0, fates, 3);
    EarlySteps(s, w0, current, fates[0], fates[1], fates[2], fates[3]);
  }

  lemma EarlySteps(s: Secret, w0: World, current: string, registry: Fate, fleet: Fate, file: Fate, generator: Fate)
    requires |s.envFiles| > 0 && HasBackingService(s.kind) && Primary(s) in w0.files
    requires Lookup(w0.files[Primary(s)], s.envKey) == Some(current)
    requires registry.ok && fleet.ok && file.ok && generator.ok
    ensures var r := Step(s, Step(s, Step(s, Step(s, State(Start(s), w0), registry), fleet), file), generator);
            && r.local.phase == Applying && r.local.journal.next == generator.text && r.world == w0
            && r.local.target == ResolveAdminPassword(s.target, w0.files[Primary(s)], current)
  {
    hide Lookup, ResolveAdminPassword, ApplyStep, VerifyStep, WriteStep, RestartStep, UndoStep, RecordStep;
    var r1 := Step(s, State(Start(s), w0), registry);
    assert r1.local.phase == Resolving;
    var r3 := Step(s, Step(s, r1, fleet), file);
    assert r3.local.phase == Generating && r3.world == w0;
  }

  /** A Redis secret for which it happens: the rotation ends as rolled back,
      while the server has a password no file holds. */
  lemma DoubleFaultHappens() returns (s: Secret, w0: World, fates: seq<Fate>)
    ensures ValidSecret(s) && InForce(s, w0)
    ensures Run(s, w0, fates).local.phase == Finished(RolledBack)
    ensures Run(s, w0, fates).world.files == w0.files
    ensures Run(s, w0, fates).world.cells != w0.cells
  {
    hide Lookup, Edit, Run, Step, ResolveAdminPassword, ValidKey, Base64Url, Apply, LeavesStray, InForce, FaultFree,
      Fine;
    var owner := Account("cache", DEFAULT_USER);
    s := Secret("cache", Redis, "KEY", [".env"], [], Target("cache", "", "", "", ""));
    w0 := World(map[".env" := "KEY" + "=" + "old"], map[owner := Cell("old", "old")], map[], []);
    var first, fault := seq(4, _ => Fine("new")), Fine("").(persists := false, reverts := false);
    fates := first + [fault] + [Fine("")];
    ExampleKey();
    AssignmentEdits("KEY", "old", "new");
    FineIsOk("new");
    assert first[..4] == first;
    ReachApplying(s, w0, "old", first);
    OwnPassword(s.target, w0.files[".env"], "old");
    StrayHere(s, w0);
    DoubleFaultGoesUnreported(s, w0, first, fault, Fine(""));
  }

  lemma StrayHere(s: Secret, w0: World)
    requires s.kind == Redis && s.envFiles == [".env"] && s.target == Target("cache", "", "", "", "")
    requires ".env" in w0.files && Lookup(w0.files[".env"], s.envKey) == Some("old")
    requires w0.cells == map[Account("cache", DEFAULT_USER) := Cell("old", "old")]
    ensures InForce(s, w0)
    ensures LeavesStray(Redis, s.target.(adminPassword := "old"), w0.cells, "new",
                        Fine("").(persists := false, reverts := false))
  {
    hide Lookup;
  }

  // ---------------------------------------------------------------- a named Redis user

  /** `requirepass` is the default user's password, but the new value is
      verified as the configured user.  For another user, a rotation succeeds
      only if the generated value happens to be that user's password already. */
  lemma NamedRedisUserSucceedsOnlyByChance(s: Secret, w0: World, fates: seq<Fate>)
    requires ValidSecret(s) && s.kind == Redis && AdminAccount(Redis, s.target) != Owner(s)
    requires Run(s, w0, fates).local.phase == Finished(Success)
    ensures Accepts(w0.cells, AdminAccount(Redis, s.target), Run(s, w0, fates).local.journal.next)
  {
    hide Run, ValidSecret, AdminAccount, Inv;
    HasFiles(s);
    RunKeepsInv(s, w0, fates);
    RunKeepsConnection(s, w0, fates);
    ReadState(s, w0, Run(s, w0, fates));
    SucceededWithoutCause(s, w0, Run(s, w0, fates));
  }

  lemma SucceededWithoutCause(s: Secret, w0: World, r: State)
    requires |s.envFiles| > 0 && Inv(s, w0, r) && r.local.phase == Finished(Success)
    ensures r.local.cause == NoCause
  {
    hide Lookup, ResolveAdminPassword, FilesInv, CellsInv, LoadedInv, LogInv, JournalFacts;
  }

  /** Whenever nothing fails from outside, the default user's password is
      changed, the new one does not verify, and the undo cannot connect: the
      configured user still has its own password, and only the old and the new
      value of the secret are tried. */
  lemma NamedRedisUserCannotRotate(s: Secret, w0: World, current: string, fates: seq<Fate>)
    requires ValidSecret(s) && s.kind == Redis && AdminAccount(Redis, s.target) != Owner(s)
    requires Primary(s) in w0.files && Lookup(w0.files[Primary(s)], s.envKey) == Some(current)
    requires |fates| >= 8 && AllFaultFree(fates)
    requires var password := ResolveAdminPassword(s.target, w0.files[Primary(s)], current).adminPassword;
             && Accepts(w0.cells, AdminAccount(Redis, s.target), password)
             && password != current && password != fates[3].text
    requires Owner(s) in w0.cells
    ensures var r, next := Run(s, w0, fates), fates[3].text;
            && r.local.phase == Finished(RollbackFailed)
            && r.world.files == w0.files
            && r.world.cells == w0.cells[Owner(s) := Cell(next, next)]
  {
    hide Run, Lookup, ResolveAdminPassword, ValidKey, Apply, Verify, Restore, FaultFree, Inv, Step;
    forall k | 0 <= k < 4 ensures fates[k].ok {
      FaultFreeIsOk(fates[k]);
    }
    ReachApplying(s, w0, current, fates);
    var r4 := Run(s, w0, fates[..4]);
    RunKeepsInv(s, w0, fates[..4]);
    ReadState(s, w0, r4);
    ResolvedOwner(s, w0.files[Primary(s)], current);
    NamedUserPorts(r4.local.target, w0.cells, current, fates[3].text, fates[4], fates[5], fates[6]);
    RunTake(s, w0, fates, 4);
    RunTake(s, w0, fates, 5);
    RunTake(s, w0, fates, 6);
    RunTake(s, w0, fates, 7);
    UndoAfterVerify(s, w0, r4, fates[4], fates[5], fates[6], fates[7]);
    FinishedStays(s, w0, fates, 8);
  }

  lemma FaultFreeIsOk(f: Fate)
    requires FaultFree(f)
    ensures f.ok
  {}

  /** What the three credential calls do for a user other than the default. */
  lemma NamedUserPorts(t: Target, cells: Cells, current: string, next: string, apply: Fate, verify: Fate, restore: Fate)
    requires FaultFree(apply) && AdminAccount(Redis, t) != TargetAccount(Redis, t) && TargetAccount(Redis, t) in cells
    requires Accepts(cells, AdminAccount(Redis, t), t.adminPassword)
    requires t.adminPassword != current && t.adminPassword != next
    ensures var changed := cells[TargetAccount(Redis, t) := Cell(next, next)];
            && Apply(Redis, t, cells, next, apply) == (true, changed)
            && !Verify(Redis, t, changed, next, verify)
            && Restore(Redis, t, changed, current, next, restore) == (false, changed)
  {}

  lemma UndoAfterVerify(s: Secret, w0: World, r: State, apply: Fate, verify: Fate, restore: Fate, record: Fate)
    requires |s.envFiles| > 0 && s.kind == Redis && r.local.phase == Applying && Inv(s, w0, r) && r.world == w0
    requires var l, next := r.local, r.local.journal.next;
             var changed := w0.cells[Owner(s) := Cell(next, next)];
             && Apply(Redis, l.target, w0.cells, next, apply) == (true, changed)
             && !Verify(Redis, l.target, changed, next, verify)
             && Restore(Redis, l.target, changed, l.journal.previous, next, restore) == (false, changed)
    ensures var r' := Step(s, Step(s, Step(s, Step(s, r, apply), verify), restore), record);
            && r'.local.phase == Finished(RollbackFailed)
            && r'.world.files == w0.files
            && r'.world.cells == w0.cells[Owner(s) := Cell(r.local.journal.next, r.local.journal.next)]
  {
    hide Lookup, Edit, ResolveAdminPassword, Apply, Verify, Restore, Plan, Inv, Step;
    var l, next := r.local, r.local.journal.next;
    var changed := w0.(cells := w0.cells[Owner(s) := Cell(next, next)]);
    var j := WithStep(l.journal, Applied);
    AppliedPlan(s, w0, r);
    AppliedStep(s, r, changed.cells, apply);
    var l1 := l.(phase := Verifying, journal := j);
    UnverifiedStep(s, State(l1, changed), verify);
    var l2 := l1.(phase := Undoing(0), cause := VerifyFailed);
    UnrestoredStep(s, State(l2, changed), restore);
    RecordingStep(s, Step(s, State(l2, changed), restore), record);
  }

  lemma AppliedPlan(s: Secret, w0: World, r: State)
    requires |s.envFiles| > 0 && s.kind == Redis && r.local.phase == Applying && Inv(s, w0, r)
    ensures Plan(s.kind, WithStep(r.local.journal, Applied)) == [RestoreCredentialAction]
    ensures r.local.failed == []
  {
    hide Lookup, Edit, ResolveAdminPassword, FilesInv, CellsInv, LoadedInv, LogInv;
    var j := WithStep(r.local.journal, Applied);
    assert FileActions(j.written, j.backups) == [];
  }

  lemma AppliedStep(s: Secret, r: State, cells: Cells, f: Fate)
    requires |s.envFiles| > 0 && r.local.phase == Applying
    requires Apply(s.kind, r.local.target, r.world.cells, r.local.journal.next, f) == (true, cells)
    ensures Step(s, r, f) == State(r.local.(phase := Verifying, journal := WithStep(r.local.journal, Applied)),
                                   r.world.(cells := cells))
  {
    hide Apply, Plan, Compensate;
  }

  lemma UnverifiedStep(s: Secret, r: State, f: Fate)
    requires |s.envFiles| > 0 && r.local.phase == Verifying && |Plan(s.kind, r.local.journal)| > 0
    requires !Verify(s.kind, r.local.target, r.world.cells, r.local.journal.next, f)
    ensures Step(s, r, f) == State(r.local.(phase := Undoing(0), cause := VerifyFailed), r.world)
  {
    hide Verify, Plan;
  }

  lemma UnrestoredStep(s: Secret, r: State, f: Fate)
    requires |s.envFiles| > 0 && r.local.phase == Undoing(0) && r.local.failed == []
    requires Plan(s.kind, r.local.journal) == [RestoreCredentialAction]
    requires Restore(s.kind, r.local.target, r.world.cells, r.local.journal.previous, r.local.journal.next, f)
          == (false, r.world.cells)
    ensures Step(s, r, f).local.phase == Recording(RollbackFailed) && Step(s, r, f).world == r.world
  {
    hide Restore, Plan;
  }

  /** Such a secret: a Redis user "app" with a password of its own. */
  lemma NamedRedisUserHappens() returns (s: Secret, w0: World, fates: seq<Fate>)
    ensures ValidSecret(s) && InForce(s, w0) && AllFaultFree(fates)
    ensures Run(s, w0, fates).local.phase == Finished(RollbackFailed)
    ensures Run(s, w0, fates).world.files == w0.files && Run(s, w0, fates).world.cells != w0.cells
  {
    var owner, app := Account("cache", DEFAULT_USER), Account("cache", "app");
    s := Secret("cache", Redis, "KEY", [".env"], [], Target("cache", "app", "its own", "", ""));
    w0 := World(map[".env" := "KEY" + "=" + "old"],
                map[owner := Cell("old", "old"), app := Cell("its own", "its own")], map[], []);
    fates := [Fine(""), Fine(""), Fine(""), Fine("new"), Fine(""), Fine(""), Fine(""), Fine("")];
    hide Lookup, Edit, Run, ValidKey, Base64Url, ResolveAdminPassword;
    ExampleKey();
    AssignmentEdits("KEY", "old", "new");
    ExplicitPassword(s.target, w0.files[".env"], "old");
    NamedRedisUserCannotRotate(s, w0, "old", fates);
    assert w0.cells[owner].memory == "old";
  }

  lemma ExplicitPassword(t: Target, doc: string, current: string)
    requires t.adminPassword != ""
    ensures ResolveAdminPassword(t, doc, current) == t
  {}

  lemma OwnPassword(t: Target, doc: string, current: string)
    requires t.adminPassword == "" && t.adminPasswordEnv == "" && t.targetUser == ""
    ensures ResolveAdminPassword(t, doc, current) == t.(adminPassword := current)
  {}
}
