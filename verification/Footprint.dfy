/** What one step of a rotation may look at and what it may change. */
module Footprint {
  import opened EnvFiles
  import opened Domain
  import opened Rotations
  import opened Saga

  function FilesOf(s: Secret): set<string>
  {
    set p | p in s.envFiles
  }

  /** The account that changes, and the one the rotation connects as. */
  function AccountsOf(s: Secret): set<Account>
  {
    {Owner(s), AdminAccount(s.kind, s.target)}
  }

  ghost predicate FilesAgree(F: set<string>, f1: Files, f2: Files)
  {
    forall p :: p in F ==> (p in f1 <==> p in f2) && (p in f1 ==> f1[p] == f2[p])
  }

  ghost predicate CellsAgree(A: set<Account>, c1: Cells, c2: Cells)
  {
    forall a :: a in A ==> (a in c1 <==> a in c2) && (a in c1 ==> c1[a] == c2[a])
  }

  ghost predicate AgreeOn(F: set<string>, A: set<Account>, w1: World, w2: World)
  {
    FilesAgree(F, w1.files, w2.files) && CellsAgree(A, w1.cells, w2.cells)
  }

  /** The journal names only the secret's own files, and the target only its accounts. */
  ghost predicate Own(s: Secret, l: Local)
  {
    && (forall p :: p in l.journal.written ==> p in s.envFiles)
    && TargetAccount(s.kind, l.target) == Owner(s)
    && AdminAccount(s.kind, l.target) == AdminAccount(s.kind, s.target)
  }

  lemma StartOwn(s: Secret)
    ensures Own(s, Start(s))
  {}

  lemma StepKeepsOwn(s: Secret, r: State, f: Fate)
    requires |s.envFiles| > 0 && Own(s, r.local)
    ensures Own(s, Step(s, r, f).local)
  {
    hide Lookup, Edit, ResolveAdminPassword, Plan, Apply, Verify, Restore, Restart, WriteFile, RestoreFile;
    var w := r.world;
    if Primary(s) in w.files && Lookup(w.files[Primary(s)], s.envKey).Some? {
      ResolvedOwner(s, w.files[Primary(s)], Lookup(w.files[Primary(s)], s.envKey).value);
    }
  }

  // ---------------------------------------------------------------- ports are local

  lemma RedisApplyIsLocal(t: Target, A: set<Account>, c1: Cells, c2: Cells, next: string, f: Fate)
    requires TargetAccount(Redis, t) in A && AdminAccount(Redis, t) in A && CellsAgree(A, c1, c2)
    ensures RedisApply(t, c1, next, f).0 == RedisApply(t, c2, next, f).0
    ensures CellsAgree(A, RedisApply(t, c1, next, f).1, RedisApply(t, c2, next, f).1)
  {
    hide TargetAccount, AdminAccount;
  }

  lemma RedisRestoreIsLocal(t: Target, A: set<Account>, c1: Cells, c2: Cells, previous: string, next: string, f: Fate)
    requires TargetAccount(Redis, t) in A && AdminAccount(Redis, t) in A && CellsAgree(A, c1, c2)
    ensures RedisRestore(t, c1, previous, next, f).0 == RedisRestore(t, c2, previous, next, f).0
    ensures CellsAgree(A, RedisRestore(t, c1, previous, next, f).1, RedisRestore(t, c2, previous, next, f).1)
  {
    hide TargetAccount, AdminAccount;
  }

  lemma SqlApplyIsLocal(kind: Kind, t: Target, A: set<Account>, c1: Cells, c2: Cells, next: string, f: Fate)
    requires TargetAccount(kind, t) in A && AdminAccount(kind, t) in A && CellsAgree(A, c1, c2)
    ensures SqlApply(kind, t, c1, next, f).0 == SqlApply(kind, t, c2, next, f).0
    ensures CellsAgree(A, SqlApply(kind, t, c1, next, f).1, SqlApply(kind, t, c2, next, f).1)
  {
    hide TargetAccount, AdminAccount;
  }

  lemma SqlRestoreIsLocal(kind: Kind, t: Target, A: set<Account>, c1: Cells, c2: Cells, previous: string,
                          next: string, f: Fate)
    requires TargetAccount(kind, t) in A && AdminAccount(kind, t) in A && CellsAgree(A, c1, c2)
    ensures SqlRestore(kind, t, c1, previous, next, f).0 == SqlRestore(kind, t, c2, previous, next, f).0
    ensures CellsAgree(A, SqlRestore(kind, t, c1, previous, next, f).1, SqlRestore(kind, t, c2, previous, next, f).1)
  {
    hide TargetAccount, AdminAccount;
  }

  lemma CommandIsLocal(t: Target, A: set<Account>, c1: Cells, c2: Cells, value: string, f: Fate)
    requires CellsAgree(A, c1, c2)
    ensures CommandRun(t, c1, value, f).0 == CommandRun(t, c2, value, f).0
    ensures CellsAgree(A, CommandRun(t, c1, value, f).1, CommandRun(t, c2, value, f).1)
  {
    hide TargetAccount;
  }

  lemma CredentialPortsAreLocal(s: Secret, t: Target, A: set<Account>, c1: Cells, c2: Cells,
                                previous: string, next: string, f: Fate)
    requires AccountsOf(s) <= A && CellsAgree(A, c1, c2)
    requires TargetAccount(s.kind, t) == Owner(s) && AdminAccount(s.kind, t) == AdminAccount(s.kind, s.target)
    ensures Apply(s.kind, t, c1, next, f).0 == Apply(s.kind, t, c2, next, f).0
    ensures CellsAgree(A, Apply(s.kind, t, c1, next, f).1, Apply(s.kind, t, c2, next, f).1)
    ensures Restore(s.kind, t, c1, previous, next, f).0 == Restore(s.kind, t, c2, previous, next, f).0
    ensures CellsAgree(A, Restore(s.kind, t, c1, previous, next, f).1, Restore(s.kind, t, c2, previous, next, f).1)
  {
    assert Owner(s) in A && AdminAccount(s.kind, s.target) in A;
    hide Owner, TargetAccount, AdminAccount, Apply, Restore, CellsAgree, AccountsOf;
    ApplyIsLocal(s.kind, t, A, c1, c2, next, f);
    RestoreIsLocal(s.kind, t, A, c1, c2, previous, next, f);
  }

  lemma ApplyIsLocal(kind: Kind, t: Target, A: set<Account>, c1: Cells, c2: Cells, next: string, f: Fate)
    requires TargetAccount(kind, t) in A && AdminAccount(kind, t) in A && CellsAgree(A, c1, c2)
    ensures Apply(kind, t, c1, next, f).0 == Apply(kind, t, c2, next, f).0
    ensures CellsAgree(A, Apply(kind, t, c1, next, f).1, Apply(kind, t, c2, next, f).1)
  {
    hide TargetAccount, AdminAccount, RedisApply, SqlApply, CommandRun, CellsAgree;
    match kind {
      case Redis => RedisApplyIsLocal(t, A, c1, c2, next, f);
      case Command => CommandIsLocal(t, A, c1, c2, next, f);
      case Generic =>
      case _ => SqlApplyIsLocal(kind, t, A, c1, c2, next, f);
    }
  }

  lemma RestoreIsLocal(kind: Kind, t: Target, A: set<Account>, c1: Cells, c2: Cells,
                       previous: string, next: string, f: Fate)
    requires TargetAccount(kind, t) in A && AdminAccount(kind, t) in A && CellsAgree(A, c1, c2)
    ensures Restore(kind, t, c1, previous, next, f).0 == Restore(kind, t, c2, previous, next, f).0
    ensures CellsAgree(A, Restore(kind, t, c1, previous, next, f).1, Restore(kind, t, c2, previous, next, f).1)
  {
    hide TargetAccount, AdminAccount, RedisRestore, SqlRestore, CommandRun, CellsAgree;
    match kind {
      case Redis => RedisRestoreIsLocal(t, A, c1, c2, previous, next, f);
      case Command => CommandIsLocal(t, A, c1, c2, previous, f);
      case Generic =>
      case _ => SqlRestoreIsLocal(kind, t, A, c1, c2, previous, next, f);
    }
  }

  lemma OnlyOwnerChanges(kind: Kind, t: Target, cells: Cells, previous: string, next: string, f: Fate)
    ensures SameElsewhere(cells, Apply(kind, t, cells, next, f).1, TargetAccount(kind, t))
    ensures SameElsewhere(cells, Restore(kind, t, cells, previous, next, f).1, TargetAccount(kind, t))
  {
    if HasBackingService(kind) {
      ApplyEffect(kind, t, cells, next, f);
      RestoreEffect(kind, t, cells, previous, next, f);
    }
  }

  lemma VerifyIsLocal(s: Secret, t: Target, A: set<Account>, c1: Cells, c2: Cells, value: string, f: Fate)
    requires AccountsOf(s) <= A && CellsAgree(A, c1, c2)
    requires TargetAccount(s.kind, t) == Owner(s) && AdminAccount(s.kind, t) == AdminAccount(s.kind, s.target)
    ensures Verify(s.kind, t, c1, value, f) == Verify(s.kind, t, c2, value, f)
  {
    assert Owner(s) in A && AdminAccount(s.kind, s.target) in A;
  }

  lemma WriteIsLocal(F: set<string>, f1: Files, f2: Files, path: string, key: string, value: string, f: Fate)
    requires path in F && FilesAgree(F, f1, f2)
    ensures WriteFile(f1, path, key, value, f).0 == WriteFile(f2, path, key, value, f).0
    ensures FilesAgree(F, WriteFile(f1, path, key, value, f).1, WriteFile(f2, path, key, value, f).1)
    ensures forall p :: p != path ==> FilesAgree({p}, f1, WriteFile(f1, path, key, value, f).1)
  {
    hide Lookup, Edit;
  }

  lemma RestoreFileIsLocal(F: set<string>, f1: Files, f2: Files, path: string, snapshot: string, f: Fate)
    requires path in F && FilesAgree(F, f1, f2)
    ensures RestoreFile(f1, path, snapshot, f).0 == RestoreFile(f2, path, snapshot, f).0
    ensures FilesAgree(F, RestoreFile(f1, path, snapshot, f).1, RestoreFile(f2, path, snapshot, f).1)
    ensures forall p :: p != path ==> FilesAgree({p}, f1, RestoreFile(f1, path, snapshot, f).1)
  {}

  lemma {:induction false} FileActionsOwn(written: seq<string>, backups: Files)
    ensures forall k :: 0 <= k < |FileActions(written, backups)| ==>
              FileActions(written, backups)[k].RestoreFileAction? && FileActions(written, backups)[k].path in written
  {
    if written != [] {
      var init := written[..|written|-1];
      FileActionsOwn(init, backups);
      assert forall p :: p in init ==> p in written;
      assert written[|written|-1] in written;
    }
  }

  lemma PlanOwn(s: Secret, l: Local, k: nat)
    requires Own(s, l) && k < |Plan(s.kind, l.journal)|
    ensures Plan(s.kind, l.journal)[k].RestoreFileAction? ==> Plan(s.kind, l.journal)[k].path in s.envFiles
  {
    FileActionsOwn(l.journal.written, l.journal.backups);
  }

  // ---------------------------------------------------------------- a step is local

  /** Two worlds that agree on a rotation's footprint give it the same step,
      and still agree afterwards. */
  lemma StepIsLocal(s: Secret, l: Local, w1: World, w2: World, F: set<string>, A: set<Account>, f: Fate)
    requires |s.envFiles| > 0 && Own(s, l)
    requires FilesOf(s) <= F && AccountsOf(s) <= A && AgreeOn(F, A, w1, w2)
    ensures Step(s, State(l, w1), f).local == Step(s, State(l, w2), f).local
    ensures AgreeOn(F, A, Step(s, State(l, w1), f).world, Step(s, State(l, w2), f).world)
  {
    hide ReadStep, GenerateStep, ApplyStep, VerifyStep, WriteStep, RestartStep, UndoStep, RecordStep, Own, AgreeOn,
      FilesOf, AccountsOf;
    match l.phase {
      case Reading => ReadStepIsLocal(s, l, w1, w2, F, A, f);
      case Applying => ApplyStepIsLocal(s, l, w1, w2, F, A, f);
      case Verifying => VerifyStepIsLocal(s, l, w1, w2, F, A, f);
      case Writing(_) => WriteStepIsLocal(s, l, w1, w2, F, A, f);
      case Restarting => RestartStepIsLocal(s, l, w1, w2, F, A, f);
      case Undoing(_) => UndoIsLocal(s, l, w1, w2, F, A, f);
      case Recording(_) => RecordStepIsLocal(s, l, w1, w2, F, A, f);
      case _ =>
    }
  }

  lemma ReadStepIsLocal(s: Secret, l: Local, w1: World, w2: World, F: set<string>, A: set<Account>, f: Fate)
    requires |s.envFiles| > 0 && FilesOf(s) <= F && AgreeOn(F, A, w1, w2)
    ensures ReadStep(s, l, w1, f) == ReadStep(s, l, w2, f)
  {
    SamePrimary(s, F, w1.files, w2.files);
  }

  lemma ApplyStepIsLocal(s: Secret, l: Local, w1: World, w2: World, F: set<string>, A: set<Account>, f: Fate)
    requires Own(s, l) && AccountsOf(s) <= A && AgreeOn(F, A, w1, w2)
    ensures ApplyStep(s, l, w1, f).local == ApplyStep(s, l, w2, f).local
    ensures AgreeOn(F, A, ApplyStep(s, l, w1, f).world, ApplyStep(s, l, w2, f).world)
  {
    hide Apply, Compensate, FilesAgree, CellsAgree, TargetAccount, AdminAccount, AccountsOf;
    CredentialPortsAreLocal(s, l.target, A, w1.cells, w2.cells, l.journal.previous, l.journal.next, f);
  }

  lemma VerifyStepIsLocal(s: Secret, l: Local, w1: World, w2: World, F: set<string>, A: set<Account>, f: Fate)
    requires Own(s, l) && AccountsOf(s) <= A && AgreeOn(F, A, w1, w2)
    ensures VerifyStep(s, l, w1, f) == VerifyStep(s, l, w2, f)
  {
    hide Verify, Compensate, TargetAccount, AdminAccount, AccountsOf;
    VerifyIsLocal(s, l.target, A, w1.cells, w2.cells, l.journal.next, f);
  }

  lemma RestartStepIsLocal(s: Secret, l: Local, w1: World, w2: World, F: set<string>, A: set<Account>, f: Fate)
    requires AgreeOn(F, A, w1, w2)
    ensures RestartStep(s, l, w1, f).local == RestartStep(s, l, w2, f).local
    ensures AgreeOn(F, A, RestartStep(s, l, w1, f).world, RestartStep(s, l, w2, f).world)
  {
    hide Compensate, LoadFirst, FilesAgree, CellsAgree;
  }

  lemma RecordStepIsLocal(s: Secret, l: Local, w1: World, w2: World, F: set<string>, A: set<Account>, f: Fate)
    requires l.phase.Recording? && AgreeOn(F, A, w1, w2)
    ensures RecordStep(s, l, w1, f).local == RecordStep(s, l, w2, f).local
    ensures AgreeOn(F, A, RecordStep(s, l, w1, f).world, RecordStep(s, l, w2, f).world)
  {
    hide FilesAgree, CellsAgree;
  }

  lemma WriteStepIsLocal(s: Secret, l: Local, w1: World, w2: World, F: set<string>, A: set<Account>, f: Fate)
    requires l.phase.Writing? && FilesOf(s) <= F && AgreeOn(F, A, w1, w2)
    ensures WriteStep(s, l, w1, f).local == WriteStep(s, l, w2, f).local
    ensures AgreeOn(F, A, WriteStep(s, l, w1, f).world, WriteStep(s, l, w2, f).world)
  {
    hide Lookup, Edit, Plan, WriteFile, Compensate, AfterFiles, FilesAgree, CellsAgree;
    var i := l.phase.i;
    if i < |s.envFiles| {
      assert s.envFiles[i] in FilesOf(s);
      WriteIsLocal(F, w1.files, w2.files, s.envFiles[i], s.envKey, l.journal.next, f);
    }
  }

  lemma OwnAccounts(s: Secret, l: Local)
    requires Own(s, l)
    ensures TargetAccount(s.kind, l.target) == Owner(s)
    ensures AdminAccount(s.kind, l.target) == AdminAccount(s.kind, s.target)
  {}

  lemma SamePrimary(s: Secret, F: set<string>, f1: Files, f2: Files)
    requires |s.envFiles| > 0 && FilesOf(s) <= F && FilesAgree(F, f1, f2)
    ensures Primary(s) in f1 <==> Primary(s) in f2
    ensures Primary(s) in f1 ==> f1[Primary(s)] == f2[Primary(s)]
  {
    assert Primary(s) in FilesOf(s);
  }

  lemma UndoIsLocal(s: Secret, l: Local, w1: World, w2: World, F: set<string>, A: set<Account>, f: Fate)
    requires Own(s, l) && l.phase.Undoing?
    requires FilesOf(s) <= F && AccountsOf(s) <= A && AgreeOn(F, A, w1, w2)
    ensures UndoStep(s, l, w1, f).local == UndoStep(s, l, w2, f).local
    ensures AgreeOn(F, A, UndoStep(s, l, w1, f).world, UndoStep(s, l, w2, f).world)
  {
    hide Plan, UndoAction, Own, AgreeOn, UndoFrom, UndoOutcome, FilesOf, AccountsOf;
    var j := l.phase.j;
    if j < |Plan(s.kind, l.journal)| {
      PlanOwn(s, l, j);
      ActionIsLocal(s, l, w1, w2, F, A, Plan(s.kind, l.journal)[j], f);
    }
  }

  lemma ActionIsLocal(s: Secret, l: Local, w1: World, w2: World, F: set<string>, A: set<Account>, action: Action,
                      f: Fate)
    requires Own(s, l) && (action.RestoreFileAction? ==> action.path in s.envFiles)
    requires FilesOf(s) <= F && AccountsOf(s) <= A && AgreeOn(F, A, w1, w2)
    ensures UndoAction(s, l, w1, action, f).0 == UndoAction(s, l, w2, action, f).0
    ensures AgreeOn(F, A, UndoAction(s, l, w1, action, f).1, UndoAction(s, l, w2, action, f).1)
  {
    hide Restore, RestoreFile, Own, FilesAgree, CellsAgree, LoadFirst, TargetAccount, AdminAccount, AccountsOf;
    match action {
      case RestoreFileAction(path, snapshot) =>
        assert path in FilesOf(s);
        RestoreFileIsLocal(F, w1.files, w2.files, path, snapshot, f);
      case RestartAction(_) =>
      case RestoreCredentialAction =>
        OwnAccounts(s, l);
        CredentialPortsAreLocal(s, l.target, A, w1.cells, w2.cells, l.journal.previous, l.journal.next, f);
    }
  }

  /** A step changes no file and no account but the rotation's own. */
  lemma StepStaysInside(s: Secret, l: Local, w: World, f: Fate, F: set<string>, A: set<Account>)
    requires |s.envFiles| > 0 && Own(s, l)
    requires F !! FilesOf(s) && Owner(s) !in A
    ensures AgreeOn(F, A, w, Step(s, State(l, w), f).world)
  {
    hide Lookup, Edit, ResolveAdminPassword, Plan, Apply, Verify, Restore, WriteFile, RestoreFile, Compensate,
      AfterFiles, Own, FilesAgree, CellsAgree;
    NothingChanged(F, A, w);
    match l.phase {
      case Applying =>
        OwnAccounts(s, l);
        OnlyOwnerChanges(s.kind, l.target, w.cells, l.journal.previous, l.journal.next, f);
        OnlyOwner(s, A, w.cells, Apply(s.kind, l.target, w.cells, l.journal.next, f).1);
      case Writing(i) =>
        if i < |s.envFiles| {
          assert s.envFiles[i] in FilesOf(s);
          NothingChanged(FilesOf(s), A, w);
          WriteIsLocal(FilesOf(s), w.files, w.files, s.envFiles[i], s.envKey, l.journal.next, f);
          OnlyPath(F, s.envFiles[i], w.files, WriteFile(w.files, s.envFiles[i], s.envKey, l.journal.next, f).1);
        }
      case Undoing(j) =>
        UndoStaysInside(s, l, w, f, F, A);
      case _ =>
    }
  }

  lemma NothingChanged(F: set<string>, A: set<Account>, w: World)
    ensures FilesAgree(F, w.files, w.files) && CellsAgree(A, w.cells, w.cells)
  {}

  lemma OnlyOwner(s: Secret, A: set<Account>, c: Cells, c': Cells)
    requires Owner(s) !in A && SameElsewhere(c, c', Owner(s))
    ensures CellsAgree(A, c, c')
  {}

  lemma OnlyPath(F: set<string>, path: string, f: Files, f': Files)
    requires path !in F && forall p :: p != path ==> FilesAgree({p}, f, f')
    ensures FilesAgree(F, f, f')
  {
    forall p | p in F ensures (p in f <==> p in f') && (p in f ==> f[p] == f'[p]) {
      assert FilesAgree({p}, f, f');
      assert p in {p};
    }
  }

  lemma UndoStaysInside(s: Secret, l: Local, w: World, f: Fate, F: set<string>, A: set<Account>)
    requires Own(s, l) && l.phase.Undoing?
    requires F !! FilesOf(s) && Owner(s) !in A
    ensures AgreeOn(F, A, w, UndoStep(s, l, w, f).world)
  {
    hide Plan, Restore, RestoreFile, Own, FilesAgree, CellsAgree;
    NothingChanged(F, A, w);
    var j := l.phase.j;
    if j < |Plan(s.kind, l.journal)| {
      PlanOwn(s, l, j);
      match Plan(s.kind, l.journal)[j] {
        case RestoreFileAction(path, snapshot) =>
          assert path in FilesOf(s);
          NothingChanged(FilesOf(s), A, w);
          RestoreFileIsLocal(FilesOf(s), w.files, w.files, path, snapshot, f);
          OnlyPath(F, path, w.files, RestoreFile(w.files, path, snapshot, f).1);
        case RestartAction(_) =>
        case RestoreCredentialAction =>
          OwnAccounts(s, l);
          OnlyOwnerChanges(s.kind, l.target, w.cells, l.journal.previous, l.journal.next, f);
          OnlyOwner(s, A, w.cells, Restore(s.kind, l.target, w.cells, l.journal.previous, l.journal.next, f).1);
      }
    }
  }
}
