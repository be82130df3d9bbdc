/** The use case itself: the code of a rotation, driving ports that change the
    outside world, proved to be a run of the saga machine. */
module RotateSecret {
  import opened Text
  import opened EnvFiles
  import opened Domain
  import opened Rotations
  import opened Saga

  /** Everything the ports reach.  Call number `tick` meets `fates(tick)`. */
  class Host {
    var files: Files
    var cells: Cells
    var loaded: Loads
    var log: seq<Record>
    var tick: nat
    const fates: nat -> Fate

    constructor (w: World, fates: nat -> Fate)
      ensures View() == w && tick == 0 && this.fates == fates
    {
      files, cells, loaded, log, tick := w.files, w.cells, w.loaded, w.log, 0;
      this.fates := fates;
    }

    function View(): World
      reads this
    {
      World(files, cells, loaded, log)
    }

    /** One call: takes the next fate.  For the registry, the fleet's Resolve
        and the generator the answer is all there is. */
    method Call() returns (f: Fate)
      modifies this`tick
      ensures f == fates(old(tick)) && tick == old(tick) + 1
    {
      f := fates(tick);
      tick := tick + 1;
    }

    method Open(path: string) returns (data: Option<string>)
      modifies this`tick
      ensures tick == old(tick) + 1
      ensures data == if fates(old(tick)).ok && path in files then Some(files[path]) else None
    {
      var f := Call();
      if f.ok && path in files {
        data := Some(files[path]);
      } else {
        data := None;
      }
    }

    /** Store.Write: read, parse, check the key, edit, replace atomically. */
    method Write(path: string, key: string, value: string) returns (before: Option<string>)
      modifies this`tick, this`files
      ensures tick == old(tick) + 1
      ensures (before, files) == WriteFile(old(files), path, key, value, fates(old(tick)))
    {
      var f := Call();
      if path !in files {
        return None;
      }
      var data := files[path];
      var ef := new EnvFile.Parse(data);
      var current := ef.Get(key);
      if current.None? {
        return None;
      }
      ef.Set(key, value);
      var text := ef.Render();
      if !f.ok {
        return None;
      }
      files := files[path := text];
      before := Some(data);
    }

    method RestoreBytes(path: string, snapshot: string) returns (ok: bool)
      modifies this`tick, this`files
      ensures tick == old(tick) + 1
      ensures (ok, files) == RestoreFile(old(files), path, snapshot, fates(old(tick)))
    {
      var f := Call();
      ok := f.ok && path in files;
      if ok {
        files := files[path := snapshot];
      }
    }

    /** Restarts containers in order up to the first failure. */
    method RestartContainers(names: seq<string>) returns (ok: bool)
      modifies this`tick, this`loaded
      ensures tick == old(tick) + 1
      ensures (ok, loaded) == Restart(old(loaded), files, names, fates(old(tick)))
    {
      var f := Call();
      var i := 0;
      while i < |names| && (f.ok || i < f.reached)
        invariant i <= |names| && (f.ok || i <= f.reached)
        invariant tick == old(tick) + 1
        invariant loaded == LoadFirst(old(loaded), files, names, i)
      {
        loaded := loaded[names[i] := files];
        i := i + 1;
      }
      ok := f.ok;
    }

    method ApplyCredential(kind: Kind, t: Target, next: string) returns (ok: bool)
      modifies this`tick, this`cells
      ensures tick == old(tick) + 1
      ensures (ok, cells) == Apply(kind, t, old(cells), next, fates(old(tick)))
    {
      var f := Call();
      var a := TargetAccount(kind, t);
      match kind {
        case Generic =>
          ok := true;
        case Command =>
          ok := RunProgram(a, next, f);
        case Redis =>
          var admin := AdminAccount(kind, t);
          if !f.sets || !Accepts(cells, admin, t.adminPassword) || a !in cells {
            return false;
          }
          ConfigSet(a, next);
          if f.persists {
            ConfigRewrite(a);
            assert cells == old(cells)[a := Cell(next, next)];
            return true;
          }
          if f.reverts && Accepts(cells, admin, next) {
            ConfigSet(a, t.adminPassword);
            assert cells == old(cells)[a := Cell(t.adminPassword, old(cells)[a].disk)];
          }
          ok := false;
        case _ =>
          if !f.connects || !Accepts(cells, AdminAccount(kind, t), t.adminPassword) {
            return false;
          }
          ok := f.sets && a in cells;
          if ok {
            cells := cells[a := Cell(next, next)];
          }
      }
    }

    method RestoreCredential(kind: Kind, t: Target, previous: string, current: string) returns (ok: bool)
      modifies this`tick, this`cells
      ensures tick == old(tick) + 1
      ensures (ok, cells) == Restore(kind, t, old(cells), previous, current, fates(old(tick)))
    {
      var f := Call();
      var a := TargetAccount(kind, t);
      match kind {
        case Generic =>
          ok := true;
        case Command =>
          ok := RunProgram(a, previous, f);
        case Redis =>
          var admin := AdminAccount(kind, t);
          var connected := f.connects && Accepts(cells, admin, previous);
          if !connected {
            connected := f.reconnects && Accepts(cells, admin, current);
          }
          if !connected || !f.sets || a !in cells {
            return false;
          }
          ConfigSet(a, previous);
          ok := f.persists;
          if ok {
            ConfigRewrite(a);
            assert cells == old(cells)[a := Cell(previous, previous)];
          }
        case _ =>
          var admin := AdminAccount(kind, t);
          var connected := f.connects && Accepts(cells, admin, t.adminPassword);
          if !connected && t.adminUser == EffectiveTargetUser(t) {
            connected := f.reconnects && Accepts(cells, admin, current);
          }
          ok := connected && f.sets && a in cells;
          if ok {
            cells := cells[a := Cell(previous, previous)];
          }
      }
    }

    /** CONFIG SET requirepass changes the copy in memory. */
    method ConfigSet(a: Account, value: string)
      requires a in cells
      modifies this`cells
      ensures cells == old(cells)[a := Cell(value, old(cells)[a].disk)]
    {
      cells := cells[a := cells[a].(memory := value)];
    }

    /** CONFIG REWRITE persists the copy in memory. */
    method ConfigRewrite(a: Account)
      requires a in cells
      modifies this`cells
      ensures cells == old(cells)[a := Cell(old(cells)[a].memory, old(cells)[a].memory)]
    {
      cells := cells[a := cells[a].(disk := cells[a].memory)];
    }

    method RunProgram(a: Account, value: string, f: Fate) returns (ok: bool)
      modifies this`cells
      ensures ok == f.ok
      ensures cells == if f.ok then old(cells)[a := Cell(value, value)]
                       else if f.untouched then old(cells)
                       else old(cells)[a := Cell(f.text, f.text)]
    {
      ok := f.ok;
      if f.ok {
        cells := cells[a := Cell(value, value)];
      } else if !f.untouched {
        cells := cells[a := Cell(f.text, f.text)];
      }
    }

    method VerifyCredential(kind: Kind, t: Target, value: string) returns (ok: bool)
      modifies this`tick
      ensures tick == old(tick) + 1
      ensures ok == Verify(kind, t, cells, value, fates(old(tick)))
    {
      var f := Call();
      ok := f.ok && (kind == Command || kind == Generic || Accepts(cells, VerifiedAccount(kind, t), value));
    }

    method Audit(record: Record)
      modifies this`tick, this`log
      ensures tick == old(tick) + 1
      ensures log == if fates(old(tick)).ok then old(log) + [record] else old(log)
    {
      var f := Call();
      if f.ok {
        log := log + [record];
      }
    }
  }

  // ---------------------------------------------------------------- the fates a call consumed

  /** The fates of the calls numbered from..to. */
  function Window(fates: nat -> Fate, from: nat, to: nat): (w: seq<Fate>)
    requires from <= to
    ensures |w| == to - from
  {
    seq(to - from, i requires 0 <= i < to - from => fates(from + i))
  }

  lemma WindowSnoc(fates: nat -> Fate, from: nat, to: nat)
    requires from <= to
    ensures Window(fates, from, to + 1) == Window(fates, from, to) + [fates(to)]
  {}

  /** The machine's state after the calls made so far. */
  ghost predicate At(s: Secret, w0: World, fates: nat -> Fate, from: nat, to: nat, l: Local, w: World)
  {
    from <= to && |s.envFiles| > 0 && Run(s, w0, Window(fates, from, to)) == State(l, w)
  }

  lemma AtTheStart(s: Secret, w0: World, fates: nat -> Fate, from: nat)
    requires |s.envFiles| > 0
    ensures At(s, w0, fates, from, from, Start(s), w0)
  {
    assert Window(fates, from, from) == [];
  }

  /** One more call takes the machine one step further. */
  lemma OneMoreCall(s: Secret, w0: World, fates: nat -> Fate, from: nat, to: nat, l: Local, w: World)
    requires At(s, w0, fates, from, to, l, w)
    ensures |s.envFiles| > 0
    ensures var r := Step(s, State(l, w), fates(to)); At(s, w0, fates, from, to + 1, r.local, r.world)
  {
    WindowSnoc(fates, from, to);
    var window := Window(fates, from, to);
    assert (window + [fates(to)])[..|window|] == window;
  }

  /** Where the machine ended. */
  ghost predicate Ends(s: Secret, w0: World, host: Host, from: nat, outcome: Outcome, cause: Cause)
    reads host
  {
    && from <= host.tick && |s.envFiles| > 0
    && var r := Run(s, w0, Window(host.fates, from, host.tick));
       r.local.phase == Finished(outcome) && r.local.cause == cause && r.world == host.View()
  }

  /** Writes the audit record; a failure to do so is only reported. */
  method RecordOutcome(host: Host, s: Secret, rotation: Rotation, outcome: Outcome,
                       ghost w0: World, ghost from: nat, ghost l: Local)
    requires At(s, w0, host.fates, from, host.tick, l, host.View())
    requires l.phase == Recording(outcome) && l.journal == rotation.View()
    modifies host`tick, host`log
    ensures Ends(s, w0, host, from, outcome, l.cause)
  {
    hide Run;
    OneMoreCall(s, w0, host.fates, from, host.tick, l, host.View());
    hide ReadStep, GenerateStep, ApplyStep, VerifyStep, WriteStep, RestartStep, UndoStep;
    host.Audit(Record(s.name, outcome == Success, rotation.step, rotation.previous));
  }

  /** Carries out one undo action. */
  method Undo(host: Host, s: Secret, rotation: Rotation, target: Target, action: Action,
              ghost l: Local) returns (ok: bool)
    requires l.target == target && l.journal == rotation.View()
    modifies host
    ensures host.tick == old(host.tick) + 1
    ensures (ok, host.View()) == UndoAction(s, l, old(host.View()), action, host.fates(old(host.tick)))
  {
    hide Restart, RestoreFile, Restore;
    match action {
      case RestoreFileAction(path, snapshot) => ok := host.RestoreBytes(path, snapshot);
      case RestartAction(containers) => ok := host.RestartContainers(containers);
      case RestoreCredentialAction => ok := host.RestoreCredential(s.kind, target, rotation.previous, rotation.next);
    }
  }

  /** Runs the undo plan: every action is attempted, whatever failed before. */
  method Compensated(host: Host, s: Secret, rotation: Rotation, target: Target, cause: Cause,
                     ghost w0: World, ghost from: nat, ghost l: Local) returns (outcome: Outcome)
    requires At(s, w0, host.fates, from, host.tick, Compensate(s, l, cause), host.View())
    requires l.target == target && l.failed == [] && l.journal == rotation.View() && rotation.kind == s.kind
    modifies host
    ensures Ends(s, w0, host, from, outcome, cause)
  {
    hide At, Ends, Plan, UndoAction, Run;
    var plan := rotation.CompensationPlan();
    var failures: seq<nat> := [];
    ghost var m := Compensate(s, l, cause);
    for j := 0 to |plan|
      invariant At(s, w0, host.fates, from, host.tick, m, host.View())
      invariant m == l.(cause := cause, failed := failures, phase := UndoFrom(s.kind, l.(failed := failures), j))
    {
      OneMoreCall(s, w0, host.fates, from, host.tick, m, host.View());
      var ok := Undo(host, s, rotation, target, plan[j], m);
      if !ok {
        failures := failures + [j];
      }
      m := m.(failed := failures, phase := UndoFrom(s.kind, l.(failed := failures), j + 1));
    }
    outcome := if |failures| == 0 then RolledBack else RollbackFailed;
    RecordOutcome(host, s, rotation, outcome, w0, from, m);
  }

  lemma FinishedEnds(s: Secret, w0: World, host: Host, from: nat, l: Local)
    requires At(s, w0, host.fates, from, host.tick, l, host.View()) && l.phase.Finished?
    ensures Ends(s, w0, host, from, l.phase.outcome, l.cause)
  {}

  // ---------------------------------------------------------------- the use case

  datatype Document = Document(containers: seq<string>, data: string, current: string)

  /** Where the machine is once the current value has been read. */
  function AfterReading(s: Secret, d: Document): Local
    requires |s.envFiles| > 0
  {
    Local(Generating, d.containers, ResolveAdminPassword(s.target, d.data, d.current),
          WithCurrent(EMPTY, Primary(s), d.current, d.data), NoCause, [])
  }

  /** Everything that is checked before anything changes: the rotator exists,
      the containers resolve, the primary file opens and holds the key. */
  method Inspect(host: Host, s: Secret) returns (d: Option<Document>)
    requires ValidSecret(s)
    modifies host`tick
    ensures old(host.tick) <= host.tick
    ensures d.Some? ==> At(s, host.View(), host.fates, old(host.tick), host.tick, AfterReading(s, d.value), host.View())
    ensures d.None? ==> Ends(s, host.View(), host, old(host.tick), Refused, NoCause)
  {
    hide At, Ends, Run, Lookup, ResolveAdminPassword, ValidKey;
    ghost var w0, t0, fates := host.View(), host.tick, host.fates;
    ghost var l := Start(s);
    AtTheStart(s, w0, fates, t0);

    OneMoreCall(s, w0, fates, t0, host.tick, l, w0);
    var registered := host.Call();
    if !registered.ok {
      FinishedEnds(s, w0, host, t0, l.(phase := Finished(Refused)));
      return None;
    }
    l := l.(phase := Resolving);

    OneMoreCall(s, w0, fates, t0, host.tick, l, w0);
    var resolved := host.Call();
    if !resolved.ok {
      FinishedEnds(s, w0, host, t0, l.(phase := Finished(Refused)));
      return None;
    }
    l := l.(phase := Reading, containers := resolved.names);

    OneMoreCall(s, w0, fates, t0, host.tick, l, w0);
    var doc := host.Open(s.envFiles[0]);
    if doc.None? {
      FinishedEnds(s, w0, host, t0, l.(phase := Finished(Refused)));
      return None;
    }
    var current := Lookup(doc.value, s.envKey);
    if current.None? {
      FinishedEnds(s, w0, host, t0, l.(phase := Finished(Refused)));
      return None;
    }
    d := Some(Document(resolved.names, doc.value, current.value));
  }

  /** Changes the service and proves the new credential works.  A failure has
      already been compensated when this returns. */
  method ChangeService(host: Host, s: Secret, rotation: Rotation, target: Target,
                       ghost w0: World, ghost from: nat, ghost l: Local) returns (cause: Cause, outcome: Outcome)
    requires At(s, w0, host.fates, from, host.tick, l, host.View())
    requires l.phase == Applying && l.journal == rotation.View() && l.target == target && l.failed == []
    requires rotation.kind == s.kind
    modifies host, rotation
    ensures cause != NoCause ==> Ends(s, w0, host, from, outcome, cause)
    ensures cause == NoCause ==>
              At(s, w0, host.fates, from, host.tick, l.(phase := Writing(0), journal := rotation.View()), host.View())
  {
    hide At, Ends, Run, Apply, Verify, Plan, Compensate;
    ghost var m := l;
    OneMoreCall(s, w0, host.fates, from, host.tick, m, host.View());
    var applied := host.ApplyCredential(s.kind, target, rotation.next);
    if !applied {
      outcome := Compensated(host, s, rotation, target, ApplyFailed, w0, from, m);
      return ApplyFailed, outcome;
    }
    rotation.RecordApplied();
    m := m.(phase := Verifying, journal := rotation.View());

    OneMoreCall(s, w0, host.fates, from, host.tick, m, host.View());
    var verified := host.VerifyCredential(s.kind, target, rotation.next);
    if !verified {
      outcome := Compensated(host, s, rotation, target, VerifyFailed, w0, from, m);
      return VerifyFailed, outcome;
    }
    rotation.RecordVerified();
    cause, outcome := NoCause, Success;
  }

  /** The machine with i files written and journal j. */
  function WithWritten(s: Secret, l: Local, i: nat, j: Journal): Local
  {
    if i < |s.envFiles| then l.(journal := j, phase := Writing(i)) else AfterFiles(l.(journal := j))
  }

  lemma WriteStepIs(s: Secret, l: Local, i: nat, j: Journal, w: World, f: Fate)
    requires i < |s.envFiles|
    ensures var m, path := WithWritten(s, l, i, j), s.envFiles[i];
            var (before, files) := WriteFile(w.files, path, s.envKey, j.next, f);
            Step(s, State(m, w), f)
            == if before.None? then State(Compensate(s, m, WriteFailed), w)
               else State(WithWritten(s, l, i + 1, WithFileWritten(j, path, before.value)), w.(files := files))
    ensures var (before, files) := WriteFile(w.files, s.envFiles[i], s.envKey, j.next, f);
            before.None? ==> files == w.files
  {
    hide Lookup, Edit, Compensate, WithFileWritten;
  }

  /** Writes one file and journals the bytes it held. */
  method WriteOne(host: Host, s: Secret, rotation: Rotation, target: Target, i: nat,
                  ghost w0: World, ghost from: nat, ghost l: Local) returns (cause: Cause, outcome: Outcome)
    requires i < |s.envFiles|
    requires At(s, w0, host.fates, from, host.tick, WithWritten(s, l, i, rotation.View()), host.View())
    requires l.target == target && l.failed == [] && rotation.kind == s.kind
    modifies host, rotation
    ensures cause != NoCause ==> Ends(s, w0, host, from, outcome, cause)
    ensures cause == NoCause ==>
              At(s, w0, host.fates, from, host.tick, WithWritten(s, l, i + 1, rotation.View()), host.View())
  {
    hide At, Ends, Run, WriteFile, Plan, Compensate, Step;
    ghost var m := WithWritten(s, l, i, rotation.View());
    OneMoreCall(s, w0, host.fates, from, host.tick, m, host.View());
    WriteStepIs(s, l, i, rotation.View(), host.View(), host.fates(host.tick));
    var before := host.Write(s.envFiles[i], s.envKey, rotation.next);
    if before.None? {
      outcome := Compensated(host, s, rotation, target, WriteFailed, w0, from, m);
      return WriteFailed, outcome;
    }
    rotation.RecordFileWritten(s.envFiles[i], before.value);
    cause, outcome := NoCause, Success;
  }

  /** Restarts the containers and journals them, whether or not it worked. */
  method RestartAll(host: Host, s: Secret, rotation: Rotation, target: Target, containers: seq<string>,
                    ghost w0: World, ghost from: nat, ghost l: Local) returns (cause: Cause, outcome: Outcome)
    requires At(s, w0, host.fates, from, host.tick, l, host.View())
    requires l.phase == Restarting && l.journal == rotation.View() && l.containers == containers
    requires l.target == target && l.failed == [] && rotation.kind == s.kind
    modifies host, rotation
    ensures cause != NoCause ==> Ends(s, w0, host, from, outcome, cause)
    ensures cause == NoCause ==>
              At(s, w0, host.fates, from, host.tick,
                 l.(phase := Recording(Success), journal := WithStep(rotation.View(), Done)), host.View())
  {
    hide At, Ends, Run, Restart, Plan, Compensate;
    OneMoreCall(s, w0, host.fates, from, host.tick, l, host.View());
    var restarted := host.RestartContainers(containers);
    rotation.RecordRestarted(containers);
    if !restarted {
      outcome := Compensated(host, s, rotation, target, RestartFailed, w0, from, l.(journal := rotation.View()));
      return RestartFailed, outcome;
    }
    cause, outcome := NoCause, Success;
  }

  /** Rotates one secret.  The calls it makes, in order and each exactly once,
      are the steps of a finished run of the machine under the fates they met. */
  method Execute(host: Host, s: Secret) returns (outcome: Outcome, cause: Cause)
    requires ValidSecret(s)
    modifies host
    ensures Ends(s, old(host.View()), host, old(host.tick), outcome, cause)
  {
    hide At, Ends, Run, Plan, Compensate, ResolveAdminPassword, ValidKey;
    ghost var w0, t0 := host.View(), host.tick;
    var inspected := Inspect(host, s);
    if inspected.None? {
      return Refused, NoCause;
    }
    var doc := inspected.value;
    var rotation := new Rotation.Begin(s.kind, s.envFiles[0]);
    rotation.RecordCurrentValue(doc.current, doc.data);
    var target := ResolveAdminPassword(s.target, doc.data, doc.current);
    ghost var l := AfterReading(s, doc);

    OneMoreCall(s, w0, host.fates, t0, host.tick, l, host.View());
    var generated := host.Call();
    if !generated.ok {
      RecordOutcome(host, s, rotation, RolledBack, w0, t0, l.(phase := Recording(RolledBack), cause := GenerateFailed));
      return RolledBack, GenerateFailed;
    }
    rotation.RecordGenerated(generated.text);
    l := l.(phase := if HasBackingService(s.kind) then Applying else Writing(0), journal := rotation.View());

    if HasBackingService(s.kind) {
      cause, outcome := ChangeService(host, s, rotation, target, w0, t0, l);
      if cause != NoCause {
        return;
      }
    }

    for i := 0 to |s.envFiles|
      invariant rotation.kind == s.kind && fresh(rotation)
      invariant At(s, w0, host.fates, t0, host.tick, WithWritten(s, l, i, rotation.View()), host.View())
    {
      cause, outcome := WriteOne(host, s, rotation, target, i, w0, t0, l);
      if cause != NoCause {
        return;
      }
    }

    if |doc.containers| > 0 {
      ghost var m := WithWritten(s, l, |s.envFiles|, rotation.View());
      cause, outcome := RestartAll(host, s, rotation, target, doc.containers, w0, t0, m);
      if cause != NoCause {
        return;
      }
      l := m;
    }

    rotation.RecordDone();
    RecordOutcome(host, s, rotation, Success, w0, t0, l.(phase := Recording(Success), journal := rotation.View()));
    return Success, NoCause;
  }
}
