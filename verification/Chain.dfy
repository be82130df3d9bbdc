/** Rotations that follow one another: what a self-rotating account keeps over
    any number of them. */
module Chain {
  import opened Text
  import opened EnvFiles
  import opened Domain
  import opened Saga
  import opened Guarantees
  import DryRun
  import Services

  /** An account that changes its own password, with the credential to connect
      taken from the file the rotation itself updates. */
  predicate SelfRotating(s: Secret)
  {
    && HasBackingService(s.kind)
    && AdminAccount(s.kind, s.target) == Owner(s)
    && s.target.adminPassword == ""
    && (s.target.targetUser == "" || s.target.targetUser == s.target.adminUser)
    && (s.target.adminPasswordEnv == "" || NewEnvKey(s.target.adminPasswordEnv) == Some(s.envKey))
  }

  lemma SelfRotatingConnectsWithCurrent(s: Secret, doc: string, current: string)
    requires SelfRotating(s) && Lookup(doc, s.envKey) == Some(current)
    ensures ResolveAdminPassword(s.target, doc, current).adminPassword == current
  {
    hide Lookup, NewEnvKey, AdminAccount;
  }

  /** In every run that starts in step, the Apply is given the credential that
      the service accepts at that moment. */
  lemma ApplyGetsTheCredentialInForce(s: Secret, w0: World, fates: seq<Fate>)
    requires ValidSecret(s) && SelfRotating(s) && InForce(s, w0)
    requires Run(s, w0, fates).local.phase == Applying
    ensures var r := Run(s, w0, fates);
            Accepts(r.world.cells, AdminAccount(s.kind, r.local.target), r.local.target.adminPassword)
  {
    RunKeepsInv(s, w0, fates);
    hide Run, Lookup, SelfRotating, ResolveAdminPassword, Inv;
    var r := Run(s, w0, fates);
    ReadState(s, w0, r);
    var doc, current := w0.files[Primary(s)], r.local.journal.previous;
    SelfRotatingConnectsWithCurrent(s, doc, current);
    ResolvedOwner(s, doc, current);
  }

  /** A rotation that ended in success or in a clean rollback. */
  ghost predicate EndsWell(s: Secret, w0: World, fates: seq<Fate>)
    requires |s.envFiles| > 0
  {
    var r := Run(s, w0, fates);
    || r.local.phase == Finished(Refused)
    || (r.local.phase == Finished(Success) && Base64Url(r.local.journal.next))
    || (r.local.phase == Finished(RolledBack) && NoStray(s, w0, fates))
  }

  ghost predicate Agree(s: Secret, w: World, p: string, q: string)
  {
    p in w.files && q in w.files && Lookup(w.files[p], s.envKey).Some? &&
    Lookup(w.files[p], s.envKey) == Lookup(w.files[q], s.envKey)
  }

  /** One rotation that ends well keeps service and files in step, and keeps
      files that agreed in agreement. */
  lemma EndingWellStaysInStep(s: Secret, w0: World, fates: seq<Fate>)
    requires ValidSecret(s) && HasBackingService(s.kind) && InForce(s, w0) && EndsWell(s, w0, fates)
    ensures InForce(s, Run(s, w0, fates).world)
    ensures forall p, q :: p in s.envFiles && q in s.envFiles && Agree(s, w0, p, q) ==>
              Agree(s, Run(s, w0, fates).world, p, q)
  {
    hide Run, Lookup, InForce, NoStray, ValidSecret;
    HasFiles(s);
    match Run(s, w0, fates).local.phase.outcome {
      case Success => SuccessStaysInStep(s, w0, fates);
      case Refused => RefusalChangesNothing(s, w0, fates);
      case RolledBack => RollbackStaysInStep(s, w0, fates);
      case RollbackFailed =>
    }
  }

  lemma SuccessStaysInStep(s: Secret, w0: World, fates: seq<Fate>)
    requires ValidSecret(s) && HasBackingService(s.kind)
    requires Run(s, w0, fates).local.phase == Finished(Success) && Base64Url(Run(s, w0, fates).local.journal.next)
    ensures InForce(s, Run(s, w0, fates).world)
    ensures forall p, q :: p in s.envFiles && q in s.envFiles ==> Agree(s, Run(s, w0, fates).world, p, q)
  {
    hide Run, Lookup, Edit, Base64Url, AllLoaded, SameLoadsElsewhere;
    SuccessIsComplete(s, w0, fates);
    assert Primary(s) in s.envFiles;
  }

  lemma RollbackStaysInStep(s: Secret, w0: World, fates: seq<Fate>)
    requires ValidSecret(s) && HasBackingService(s.kind) && InForce(s, w0)
    requires Run(s, w0, fates).local.phase == Finished(RolledBack) && NoStray(s, w0, fates)
    ensures InForce(s, Run(s, w0, fates).world)
    ensures Run(s, w0, fates).world.files == w0.files
  {
    CleanRollback(s, w0, fates);
    ServiceRestoredExactlyWhen(s, w0, fates);
    hide Run, Lookup, LeavesStray, SameElsewhere, SameLoadsElsewhere, AllLoaded;
  }

  /** The world after a chain of rotations, each under its own fault schedule. */
  ghost function After(s: Secret, w0: World, runs: seq<seq<Fate>>): World
    requires |s.envFiles| > 0
  {
    if runs == [] then w0 else Run(s, After(s, w0, runs[..|runs|-1]), runs[|runs|-1]).world
  }

  /** Over any chain of rotations that each end well, the primary file's value
      is the credential the service accepts, on both its copies, and files
      that agreed at the start agree at the end. */
  lemma {:induction false} ChainStaysInStep(s: Secret, w0: World, runs: seq<seq<Fate>>)
    requires ValidSecret(s) && HasBackingService(s.kind) && InForce(s, w0)
    requires forall k :: 0 <= k < |runs| ==> EndsWell(s, After(s, w0, runs[..k]), runs[k])
    ensures InForce(s, After(s, w0, runs))
    ensures forall p, q :: p in s.envFiles && q in s.envFiles && Agree(s, w0, p, q) ==>
              Agree(s, After(s, w0, runs), p, q)
  {
    hide InForce, Agree, EndsWell, Run;
    if runs != [] {
      var init := runs[..|runs|-1];
      assert forall k :: 0 <= k <= |init| ==> init[..k] == runs[..k];
      ChainStaysInStep(s, w0, init);
      assert init == runs[..|init|];
      EndingWellStaysInStep(s, After(s, w0, init), runs[|init|]);
    }
  }

  /** In any chain of rotations that each end well, and in the one after it,
      every Apply is given the credential the service accepts at that moment. */
  lemma EveryApplyOfAChain(s: Secret, w0: World, runs: seq<seq<Fate>>, fates: seq<Fate>)
    requires ValidSecret(s) && SelfRotating(s) && InForce(s, w0)
    requires forall k :: 0 <= k < |runs| ==> EndsWell(s, After(s, w0, runs[..k]), runs[k])
    ensures forall n, m :: 0 <= n <= |runs| && 0 <= m <= |(runs + [fates])[n]| ==>
              ApplyIsAccepted(s, Run(s, After(s, w0, runs[..n]), (runs + [fates])[n][..m]))
  {
    hide Run, After, EndsWell, InForce, ValidSecret, ApplyIsAccepted;
    HasFiles(s);
    forall n, m | 0 <= n <= |runs| && 0 <= m <= |(runs + [fates])[n]|
      ensures ApplyIsAccepted(s, Run(s, After(s, w0, runs[..n]), (runs + [fates])[n][..m]))
    {
      var earlier := runs[..n];
      assert forall k :: 0 <= k <= n ==> earlier[..k] == runs[..k];
      assert forall k :: 0 <= k < n ==> earlier[k] == runs[k];
      ChainStaysInStep(s, w0, earlier);
      ApplyIsAcceptedInRun(s, After(s, w0, earlier), (runs + [fates])[n][..m]);
    }
  }

  ghost predicate ApplyIsAccepted(s: Secret, r: State)
  {
    r.local.phase == Applying ==>
      Accepts(r.world.cells, AdminAccount(s.kind, r.local.target), r.local.target.adminPassword)
  }

  lemma ApplyIsAcceptedInRun(s: Secret, w: World, fates: seq<Fate>)
    requires ValidSecret(s) && SelfRotating(s) && InForce(s, w)
    ensures ApplyIsAccepted(s, Run(s, w, fates))
  {
    hide Run, InForce, ValidSecret, SelfRotating;
    HasFiles(s);
    if Run(s, w, fates).local.phase == Applying {
      ApplyGetsTheCredentialInForce(s, w, fates);
    }
  }

  // ---------------------------------------------------------------- several secrets

  /** Secrets that have neither a key nor an account in common; they may live
      in the same files. */
  ghost predicate Separate(s: Secret, t: Secret)
  {
    s.envKey != t.envKey && (HasBackingService(s.kind) && HasBackingService(t.kind) ==> Owner(s) != Owner(t))
  }

  /** In every reachable state of a rotation, however it ends, each separate
      secret is as much in step as it was, also one in the same file. */
  lemma OthersStayInStep(s: Secret, t: Secret, w0: World, fates: seq<Fate>)
    requires ValidSecret(s) && ValidSecret(t) && Separate(s, t) && HasBackingService(t.kind) && InForce(t, w0)
    requires Base64Url(Run(s, w0, fates).local.journal.next)
    ensures InForce(t, Run(s, w0, fates).world)
  {
    hide Run, ValidKey, InForce, Inv, Separate, Base64Url;
    RunKeepsInv(s, w0, fates);
    OtherIsInStep(s, t, w0, Run(s, w0, fates));
  }

  lemma OtherIsInStep(s: Secret, t: Secret, w0: World, r: State)
    requires |s.envFiles| > 0 && |t.envFiles| > 0 && Separate(s, t) && HasBackingService(t.kind)
    requires ValidKey(s.envKey) && InForce(t, w0) && Inv(s, w0, r) && Base64Url(r.local.journal.next)
    ensures InForce(t, r.world)
  {
    hide ValidKey, Lookup, Base64Url, JournalInv, LoadedInv, LogInv, CellsInv;
    OtherLookup(s, w0, r.local, r.world, Primary(t), t.envKey);
    OtherAccounts(s, w0, r);
    hide FilesInv;
  }

  /** A rotation changes no account but its own, and none without a service. */
  lemma OtherAccounts(s: Secret, w0: World, r: State)
    requires |s.envFiles| > 0 && Inv(s, w0, r)
    ensures if HasBackingService(s.kind) then SameElsewhere(w0.cells, r.world.cells, Owner(s))
            else r.world.cells == w0.cells
  {
    hide Lookup, JournalFacts, FilesInv, LoadedInv, LogInv, SameElsewhere;
  }

  /** No other key's value changes in any file. */
  lemma OtherLookup(s: Secret, w0: World, l: Local, w: World, path: string, key: string)
    requires FilesInv(s, w0, l, w) && ValidKey(s.envKey) && Base64Url(l.journal.next) && key != s.envKey
    requires path in w0.files
    ensures path in w.files && Lookup(w.files[path], key) == Lookup(w0.files[path], key)
  {
    hide ValidKey, Lookup, Edit, Base64Url, Undone;
    assert path in w.files.Keys;
    if path in l.journal.written {
      var k :| 0 <= k < |l.journal.written| && l.journal.written[k] == path;
      GeneratedValueReadsBack(w0.files[path], s.envKey, l.journal.next);
    }
  }

  /** One rotation of one secret, under its fault schedule. */
  datatype Rotated = Rotated(secret: Secret, fates: seq<Fate>)

  ghost function RunOf(w: World, r: Rotated): State
  {
    if |r.secret.envFiles| == 0 then State(Start(r.secret), w) else Run(r.secret, w, r.fates)
  }

  /** The world after rotations of any secrets, one after the other. */
  ghost function AfterEach(w0: World, runs: seq<Rotated>): World
  {
    if runs == [] then w0 else RunOf(AfterEach(w0, runs[..|runs|-1]), runs[|runs|-1]).world
  }

  /** Rotation k is of one of these secrets and ends well. */
  ghost predicate GoesWell(secrets: seq<Secret>, w0: World, runs: seq<Rotated>, k: nat)
    requires k < |runs|
  {
    var r := runs[k];
    r.secret in secrets && |r.secret.envFiles| > 0 && EndsWell(r.secret, AfterEach(w0, runs[..k]), r.fates)
  }

  ghost predicate AllSeparate(secrets: seq<Secret>)
  {
    && (forall s :: s in secrets ==> ValidSecret(s))
    && (forall s, t :: s in secrets && t in secrets && s != t ==> Separate(s, t))
  }

  ghost predicate AllInForce(secrets: seq<Secret>, w: World)
  {
    forall s :: s in secrets && HasBackingService(s.kind) ==> |s.envFiles| > 0 && InForce(s, w)
  }

  lemma OneKeepsAllInForce(secrets: seq<Secret>, w: World, r: Rotated)
    requires AllSeparate(secrets) && AllInForce(secrets, w) && r.secret in secrets
    requires |r.secret.envFiles| > 0 && EndsWell(r.secret, w, r.fates)
    ensures AllInForce(secrets, RunOf(w, r).world)
  {
    hide Run, InForce, EndsWell, ValidSecret, Separate;
    var s := r.secret;
    forall t | t in secrets && HasBackingService(t.kind)
      ensures |t.envFiles| > 0 && InForce(t, Run(s, w, r.fates).world)
    {
      assert |t.envFiles| > 0;
      if t != s {
        OtherAfterEndingWell(s, t, w, r.fates);
      } else {
        EndingWellStaysInStep(s, w, r.fates);
      }
    }
  }

  lemma OtherAfterEndingWell(s: Secret, t: Secret, w: World, fates: seq<Fate>)
    requires ValidSecret(s) && ValidSecret(t) && Separate(s, t) && HasBackingService(t.kind) && InForce(t, w)
    requires EndsWell(s, w, fates)
    ensures InForce(t, Run(s, w, fates).world)
  {
    hide Run, InForce, ValidSecret, Separate, NoStray, Base64Url, Inv;
    HasFiles(s);
    HasFiles(t);
    match Run(s, w, fates).local.phase.outcome {
      case Success => OthersStayInStep(s, t, w, fates);
      case Refused => RefusalChangesNothing(s, w, fates);
      case RolledBack =>
        CleanRollback(s, w, fates);
        RunKeepsInv(s, w, fates);
        OtherAccounts(s, w, Run(s, w, fates));
        SameFilesInStep(s, t, w, Run(s, w, fates).world);
      case RollbackFailed =>
    }
  }

  lemma SameFilesInStep(s: Secret, t: Secret, w: World, w': World)
    requires |t.envFiles| > 0 && Separate(s, t) && HasBackingService(t.kind) && InForce(t, w) && w'.files == w.files
    requires if HasBackingService(s.kind) then SameElsewhere(w.cells, w'.cells, Owner(s)) else w'.cells == w.cells
    ensures InForce(t, w')
  {
    hide Lookup;
  }

  /** Over any rotations of separate secrets, one after the other and each
      ending well, every one of them stays in step, whatever files they share. */
  lemma {:induction false} EachStaysInStep(secrets: seq<Secret>, w0: World, runs: seq<Rotated>)
    requires AllSeparate(secrets) && AllInForce(secrets, w0)
    requires forall k :: 0 <= k < |runs| ==> GoesWell(secrets, w0, runs, k)
    ensures AllInForce(secrets, AfterEach(w0, runs))
  {
    hide AllSeparate, AllInForce, EndsWell, RunOf;
    if runs != [] {
      var n := |runs| - 1;
      var init := runs[..n];
      forall k | 0 <= k < n ensures GoesWell(secrets, w0, init, k) {
        assert GoesWell(secrets, w0, runs, k);
        assert init[..k] == runs[..k];
      }
      EachStaysInStep(secrets, w0, init);
      assert GoesWell(secrets, w0, runs, n);
      OneKeepsAllInForce(secrets, AfterEach(w0, init), runs[n]);
    }
  }

  // ---------------------------------------------------------------- rotating again

  /** The password the next rotation will connect with, told from the
      configuration and the primary file before a rotation to `next`. */
  function NextPassword(t: Target, envKey: string, doc: string, next: string): string
  {
    if t.adminPassword != "" then t.adminPassword
    else if t.adminPasswordEnv != "" then
      match NewEnvKey(t.adminPasswordEnv)
      case None => ""
      case Some(key) =>
        if key == envKey then next
        else if Lookup(doc, key).Some? then Lookup(doc, key).value
        else ""
    else if t.targetUser == "" || t.targetUser == t.adminUser then next
    else ""
  }

  lemma NextPasswordIsResolved(t: Target, envKey: string, doc: string, next: string)
    requires ValidKey(envKey) && Lookup(doc, envKey).Some? && Base64Url(next)
    ensures ResolveAdminPassword(t, Edit(doc, envKey, next), next).adminPassword == NextPassword(t, envKey, doc, next)
  {
    hide Lookup, Edit, ValidKey, NewEnvKey, Base64Url;
    GeneratedValueReadsBack(doc, envKey, next);
  }

  /** After a successful rotation of an account that changes its own password,
      a further one without faults succeeds exactly when the password it will
      connect with is the new value.  When it is not, no further rotation
      succeeds, whatever the schedule. */
  lemma RepeatSucceedsExactlyWhen(s: Secret, w0: World, first: seq<Fate>, second: seq<Fate>)
    requires ValidSecret(s) && s.kind in {MySQL, Postgres, Redis} && AdminAccount(s.kind, s.target) == Owner(s)
    requires Run(s, w0, first).local.phase == Finished(Success) && Base64Url(Run(s, w0, first).local.journal.next)
    ensures Primary(s) in w0.files
    ensures |second| >= 2 * |s.envFiles| + 12 && AllFaultFree(second) ==>
              (Run(s, Run(s, w0, first).world, second).local.phase == Finished(Success)
               <==> RepeatConnects(s, w0, Run(s, w0, first).local.journal.next))
    ensures !RepeatConnects(s, w0, Run(s, w0, first).local.journal.next) ==>
              Run(s, Run(s, w0, first).world, second).local.phase != Finished(Success)
  {
    hide Run, ValidKey, AdminAccount, Inv, DryRun.Prepared, RepeatConnects, AppliedOverConnection;
    var w, next := Run(s, w0, first).world, Run(s, w0, first).local.journal.next;
    AfterTheFirst(s, w0, first);
    if |second| >= 2 * |s.envFiles| + 12 && AllFaultFree(second) {
      DryRun.FaultFreeRunFollowsThePlan(s, w, second);
      PreparedAgain(s, w0, w, next, second[3].text);
    }
    RunKeepsInv(s, w, second);
    RunKeepsConnection(s, w, second);
    if Run(s, w, second).local.phase == Finished(Success) {
      DryRun.SuccessWasPrepared(s, w, Run(s, w, second));
      PreparedAgain(s, w0, w, next, Run(s, w, second).local.journal.next);
    }
  }

  /** A guard that can be evaluated before the first rotation. */
  predicate RepeatConnects(s: Secret, w0: World, next: string)
    requires |s.envFiles| > 0
  {
    Primary(s) in w0.files && NextPassword(s.target, s.envKey, w0.files[Primary(s)], next) == next
  }

  /** What a second rotation finds. */
  ghost predicate RotatedTo(s: Secret, w0: World, w: World, next: string)
    requires |s.envFiles| > 0
  {
    && Primary(s) in w0.files && Lookup(w0.files[Primary(s)], s.envKey).Some?
    && (forall p :: p in s.envFiles ==> p in w0.files && p in w.files && w.files[p] == Edit(w0.files[p], s.envKey, next)
                                         && Lookup(w.files[p], s.envKey) == Some(next))
    && Owner(s) in w.cells && w.cells[Owner(s)] == Cell(next, next)
  }

  lemma AfterTheFirst(s: Secret, w0: World, first: seq<Fate>)
    requires ValidSecret(s) && HasBackingService(s.kind)
    requires Run(s, w0, first).local.phase == Finished(Success) && Base64Url(Run(s, w0, first).local.journal.next)
    ensures RotatedTo(s, w0, Run(s, w0, first).world, Run(s, w0, first).local.journal.next)
  {
    hide Run, Lookup, Edit, Base64Url, AllLoaded, SameLoadsElsewhere, Inv;
    SuccessIsComplete(s, w0, first);
    RunKeepsInv(s, w0, first);
    ReadState(s, w0, Run(s, w0, first));
    assert Primary(s) in s.envFiles;
  }

  lemma PreparedAgain(s: Secret, w0: World, w: World, next: string, later: string)
    requires ValidSecret(s) && s.kind in {MySQL, Postgres, Redis} && AdminAccount(s.kind, s.target) == Owner(s)
    requires RotatedTo(s, w0, w, next) && Base64Url(next)
    ensures DryRun.Prepared(s, w, later) <==> RepeatConnects(s, w0, next)
  {
    hide Lookup, Edit, ValidKey, AdminAccount, NextPassword, ResolveAdminPassword, Base64Url, EffectiveTargetUser;
    assert Primary(s) in s.envFiles;
    NextPasswordIsResolved(s.target, s.envKey, w0.files[Primary(s)], next);
  }

  /** A self-rotating account can always be rotated again. */
  lemma SelfRotatingRepeats(s: Secret, w0: World, first: seq<Fate>, second: seq<Fate>)
    requires ValidSecret(s) && s.kind in {MySQL, Postgres, Redis} && SelfRotating(s)
    requires Run(s, w0, first).local.phase == Finished(Success) && Base64Url(Run(s, w0, first).local.journal.next)
    requires |second| >= 2 * |s.envFiles| + 12 && AllFaultFree(second)
    ensures Run(s, Run(s, w0, first).world, second).local.phase == Finished(Success)
  {
    hide Run, Lookup, NewEnvKey, Base64Url, ValidKey;
    RepeatSucceedsExactlyWhen(s, w0, first, second);
  }

  /** With the password written out in the configuration the chain breaks: once
      a rotation has succeeded with another value, no later one can. */
  lemma ExplicitPasswordWorksOnce(s: Secret, w0: World, first: seq<Fate>, second: seq<Fate>)
    requires ValidSecret(s) && s.kind in {MySQL, Postgres, Redis}
    requires s.target.adminPassword != "" && AdminAccount(s.kind, s.target) == Owner(s)
    requires Run(s, w0, first).local.phase == Finished(Success)
    requires Run(s, w0, first).local.journal.next != s.target.adminPassword
    ensures Run(s, Run(s, w0, first).world, second).local.phase != Finished(Success)
  {
    var w := Run(s, w0, first).world;
    SuccessIsComplete(s, w0, first);
    RunKeepsInv(s, w, second);
    RunKeepsConnection(s, w, second);
    hide Run, Lookup, Edit, Inv, NewEnvKey;
    var again := Run(s, w, second);
    if again.local.phase == Finished(Success) {
      ReadState(s, w, again);
    }
  }

  /** With a password of its own written out in the configuration, only the
      first rotation of this account can succeed; nothing fails from outside. */
  lemma ExplicitPasswordHappens() returns (s: Secret, w0: World, first: seq<Fate>, second: seq<Fate>)
    ensures ValidSecret(s) && InForce(s, w0) && s.target.adminPassword != ""
    ensures AllFaultFree(first)
    ensures AllFaultFree(second)
    ensures Run(s, w0, first).local.phase == Finished(Success)
    ensures Run(s, Run(s, w0, first).world, second).local.phase.Finished?
    ensures Run(s, Run(s, w0, first).world, second).local.phase != Finished(Success)
  {
    hide Lookup, Edit, Run, ValidKey, Base64Url, DryRun.Prepared, RepeatConnects, InForce, FaultFree, AllFaultFree;
    var owner := Account("cache", DEFAULT_USER);
    s := Secret("cache", Redis, "KEY", [".env"], [], Target("cache", "", "old", "", ""));
    w0 := World(map[".env" := "KEY" + "=" + "old"], map[owner := Cell("old", "old")], map[], []);
    first, second := seq(14, _ => Fine("new")), seq(14, _ => Fine("newer"));
    ExampleKey();
    AssignmentEdits("KEY", "old", "new");
    AllFine("new", 14);
    AllFine("newer", 14);
    ExplicitPasswordFirst(s, w0);
    OnlyTheFirstSucceeds(s, w0, first, second);
  }

  lemma AllFine(text: string, n: nat)
    ensures AllFaultFree(seq(n, _ => Fine(text)))
  {}

  /** The same for any account that will connect with another password. */
  lemma OnlyTheFirstSucceeds(s: Secret, w0: World, first: seq<Fate>, second: seq<Fate>)
    requires ValidSecret(s) && s.kind in {MySQL, Postgres, Redis} && AdminAccount(s.kind, s.target) == Owner(s)
    requires |first| >= 2 * |s.envFiles| + 12 && |second| >= 2 * |s.envFiles| + 12 && AllFaultFree(first)
    requires DryRun.Prepared(s, w0, first[3].text) && Base64Url(first[3].text)
    requires !RepeatConnects(s, w0, first[3].text)
    ensures Run(s, w0, first).local.phase == Finished(Success)
    ensures Run(s, Run(s, w0, first).world, second).local.phase.Finished?
    ensures Run(s, Run(s, w0, first).world, second).local.phase != Finished(Success)
  {
    hide Run, ValidKey, Base64Url, DryRun.Prepared, RepeatConnects, AllFaultFree, AdminAccount;
    DryRun.FaultFreeRunFollowsThePlan(s, w0, first);
    SuccessGenerates(s, w0, first);
    RepeatSucceedsExactlyWhen(s, w0, first, second);
    RunFinishes(s, Run(s, w0, first).world, second);
  }

  lemma ExplicitPasswordFirst(s: Secret, w0: World)
    requires s.kind == Redis && s.envFiles == [".env"] && s.target == Target("cache", "", "old", "", "")
    requires ".env" in w0.files && Lookup(w0.files[".env"], s.envKey) == Some("old")
    requires w0.cells == map[Account("cache", DEFAULT_USER) := Cell("old", "old")]
    ensures DryRun.Prepared(s, w0, "new") && !RepeatConnects(s, w0, "new") && InForce(s, w0)
    ensures AdminAccount(s.kind, s.target) == Owner(s)
  {
    hide Lookup;
  }

  // ---------------------------------------------------------------- a named entry that is missing

  /** The configuration names an entry for the password, and the primary file
      has nothing under that name. */
  predicate EntryMissing(t: Target, doc: string)
  {
    && t.adminPassword == "" && t.adminPasswordEnv != ""
    && match NewEnvKey(t.adminPasswordEnv)
       case None => true
       case Some(key) => Lookup(doc, key).None? || Lookup(doc, key).value == ""
  }

  /** Then the connection is made with the empty password, whatever the process
      environment holds: without faults the rotation succeeds exactly when the
      service accepts that, and a Redis user other than the default one has it
      as the new value too. */
  lemma MissingEntrySucceedsExactlyWhen(s: Secret, w0: World, fates: seq<Fate>)
    requires ValidSecret(s) && s.kind in {MySQL, Postgres, Redis} && Owner(s) in w0.cells
    requires forall p :: p in s.envFiles ==> p in w0.files && Lookup(w0.files[p], s.envKey).Some?
    requires Primary(s) in w0.files && EntryMissing(s.target, w0.files[Primary(s)])
    requires |fates| >= 2 * |s.envFiles| + 12 && AllFaultFree(fates)
    ensures Run(s, w0, fates).local.phase == Finished(Success) <==>
              && Accepts(w0.cells, AdminAccount(s.kind, s.target), "")
              && (s.kind == Redis && AdminAccount(s.kind, s.target) != Owner(s) ==> fates[3].text == "")
  {
    hide Run, Lookup, NewEnvKey, ValidKey, AdminAccount;
    DryRun.FaultFreeRunFollowsThePlan(s, w0, fates);
  }

  /** Such a secret: the root password is in the process environment only. */
  lemma MissingEntryHappens() returns (s: Secret, w0: World, fates: seq<Fate>)
    ensures ValidSecret(s) && InForce(s, w0) && EntryMissing(s.target, w0.files[Primary(s)])
    ensures Accepts(w0.cells, AdminAccount(s.kind, s.target), "root password")
    ensures AllFaultFree(fates)
    ensures Run(s, w0, fates).local.phase.Finished? && Run(s, w0, fates).local.phase != Finished(Success)
  {
    hide Lookup, Edit, Run, ValidKey, Base64Url, NewEnvKey, InForce, EntryMissing, FaultFree;
    var root, app := Account("db", "root"), Account("db", "app");
    s := Secret("db", MySQL, "KEY", [".env"], [], Target("db", "root", "", "DB_ROOT", "app"));
    w0 := World(map[".env" := "KEY" + "=" + "old"],
                map[root := Cell("root password", "root password"), app := Cell("old", "old")], map[], []);
    fates := seq(14, _ => Fine("new"));
    ExampleKey();
    AssignmentEdits("KEY", "old", "new");
    OnlyEntry("KEY", "old");
    RootEntry();
    RootOnlyElsewhere(s, w0);
    MissingEntrySucceedsExactlyWhen(s, w0, fates);
    RunFinishes(s, w0, fates);
  }

  lemma RootOnlyElsewhere(s: Secret, w0: World)
    requires s.kind == MySQL && s.envFiles == [".env"] && s.target == Target("db", "root", "", "DB_ROOT", "app")
    requires ".env" in w0.files && Lookup(w0.files[".env"], s.envKey) == Some("old")
    requires NewEnvKey("DB_ROOT") == Some("DB_ROOT") && Lookup(w0.files[".env"], "DB_ROOT") == None
    requires w0.cells == map[Account("db", "root") := Cell("root password", "root password"),
                             Account("db", "app") := Cell("old", "old")]
    ensures InForce(s, w0) && EntryMissing(s.target, w0.files[".env"]) && Owner(s) in w0.cells
    ensures Accepts(w0.cells, AdminAccount(s.kind, s.target), "root password")
    ensures !Accepts(w0.cells, AdminAccount(s.kind, s.target), "")
  {
    hide Lookup, NewEnvKey;
  }

  lemma OnlyEntry(key: string, current: string)
    requires ValidKey(key) && Base64Url(current)
    ensures forall other :: other != key ==> Lookup(key + "=" + current, other) == None
  {
    hide ParseLine, Find;
    var data := key + "=" + current;
    UnquotedText(current);
    ParseAssignment(key, current);
    AssignmentIsOneLine("", key, "=", current);
    assert "" + key + "=" + current == data;
    assert SplitLines(data) == [data] && ParseLines(data) == [ParseLine(data)];
  }

  lemma RootEntry()
    ensures NewEnvKey("DB_ROOT") == Some("DB_ROOT")
  {
    assert ValidKey("DB_ROOT");
    ValidKeyIsSolid("DB_ROOT", "");
  }

  lemma SuccessGenerates(s: Secret, w0: World, fates: seq<Fate>)
    requires ValidSecret(s) && Run(s, w0, fates).local.phase == Finished(Success)
    ensures |fates| > 3 && Run(s, w0, fates).local.journal.next == fates[3].text
  {
    hide Run, Inv, ValidKey;
    RunKeepsNextTrace(s, w0, fates);
    RunKeepsInv(s, w0, fates);
    Services.SucceededWithoutCause(s, w0, Run(s, w0, fates));
  }
}
