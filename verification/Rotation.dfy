/** The journal of one rotation attempt, and the undo plan derived from it. */
module Rotations {
  import opened Domain

  /** What a rotation has recorded so far. */
  datatype Journal = Journal(step: StepName, previous: string, next: string,
                             backups: Files, written: seq<string>, restarted: seq<string>)

  datatype Action = RestoreFileAction(path: string, snapshot: string)
                  | RestartAction(containers: seq<string>)
                  | RestoreCredentialAction

  const EMPTY := Journal(Pending, "", "", map[], [], [])

  /** The pipeline moves forward, never backwards. */
  function Advance(step: StepName, to: StepName): StepName
  {
    if Rank(to) > Rank(step) then to else step
  }

  function WithCurrent(j: Journal, primary: string, current: string, snapshot: string): Journal
  {
    j.(previous := current, backups := j.backups[primary := snapshot], step := Advance(j.step, Read))
  }

  function WithGenerated(j: Journal, next: string): Journal
  {
    j.(next := next, step := Advance(j.step, Generated))
  }

  function WithStep(j: Journal, to: StepName): Journal
  {
    j.(step := Advance(j.step, to))
  }

  /** The first snapshot of a path is kept; later ones are ignored. */
  function WithFileWritten(j: Journal, path: string, snapshot: string): Journal
  {
    j.(backups := if path in j.backups then j.backups else j.backups[path := snapshot],
       written := j.written + [path],
       step := Advance(j.step, FilesUpdated))
  }

  function WithRestarted(j: Journal, containers: seq<string>): Journal
  {
    j.(restarted := containers, step := Advance(j.step, Restarted))
  }

  /** One restore per written file that has a backup, in write order. */
  function FileActions(written: seq<string>, backups: Files): seq<Action>
  {
    if written == [] then []
    else
      var init := FileActions(written[..|written|-1], backups);
      var path := written[|written|-1];
      if path in backups then init + [RestoreFileAction(path, backups[path])] else init
  }

  function RestartActions(j: Journal): seq<Action>
  {
    if Rank(j.step) >= Rank(Restarted) && |j.restarted| > 0 then [RestartAction(j.restarted)] else []
  }

  function CredentialActions(kind: Kind, j: Journal): seq<Action>
  {
    if Rank(j.step) >= Rank(Applied) && HasBackingService(kind) then [RestoreCredentialAction] else []
  }

  /** Files first, then the restart that picks them up, then the service. */
  function Plan(kind: Kind, j: Journal): seq<Action>
  {
    if Rank(j.step) < Rank(Generated) then []
    else FileActions(j.written, j.backups) + RestartActions(j) + CredentialActions(kind, j)
  }

  ghost predicate AllBackedUp(j: Journal)
  {
    forall p :: p in j.written ==> p in j.backups
  }

  lemma {:induction false} FileActionsAt(written: seq<string>, backups: Files)
    requires forall p :: p in written ==> p in backups
    ensures |FileActions(written, backups)| == |written|
    ensures forall k :: 0 <= k < |written| ==>
              FileActions(written, backups)[k] == RestoreFileAction(written[k], backups[written[k]])
  {
    if written != [] {
      var init := written[..|written|-1];
      assert forall p :: p in init ==> p in written;
      assert written[|written|-1] in written;
      FileActionsAt(init, backups);
    }
  }

  /** The plan, position by position: every written file in write order, then
      at most one restart, then at most one credential. */
  lemma PlanAt(kind: Kind, j: Journal)
    requires AllBackedUp(j) && Rank(j.step) >= Rank(Generated)
    ensures var n, r, c := |j.written|, |RestartActions(j)|, |CredentialActions(kind, j)|;
            && |Plan(kind, j)| == n + r + c
            && (forall k :: 0 <= k < n ==>
                  Plan(kind, j)[k] == RestoreFileAction(j.written[k], j.backups[j.written[k]]))
            && (r == 1 ==> Plan(kind, j)[n] == RestartAction(j.restarted))
            && (c == 1 ==> Plan(kind, j)[n + r] == RestoreCredentialAction)
  {
    FileActionsAt(j.written, j.backups);
  }

  /** The step is the furthest of those recorded. */
  lemma StepNeverGoesBack(step: StepName, to: StepName)
    ensures var now := Advance(step, to);
            && (now == step || now == to)
            && Rank(now) >= Rank(step) && Rank(now) >= Rank(to)
  {}

  datatype Written = Written(path: string, snapshot: string)

  /** The journal after a number of writes. */
  function AfterWrites(j: Journal, writes: seq<Written>): Journal
  {
    if writes == [] then j
    else
      var last := writes[|writes|-1];
      WithFileWritten(AfterWrites(j, writes[..|writes|-1]), last.path, last.snapshot)
  }

  /** Whatever is written after it, also to the same path, the journal keeps the
      bytes that a file held before its first write. */
  lemma {:induction false} FirstSnapshotIsKept(j: Journal, writes: seq<Written>, k: nat)
    requires k < |writes| && forall i :: 0 <= i < k ==> writes[i].path != writes[k].path
    ensures var p, after := writes[k].path, AfterWrites(j, writes).backups;
            p in after && after[p] == if p in j.backups then j.backups[p] else writes[k].snapshot
    decreases |writes|
  {
    var n := |writes| - 1;
    if k < n {
      FirstSnapshotIsKept(j, writes[..n], k);
    } else {
      OthersKeepNothing(j, writes[..n], writes[k].path);
    }
  }

  lemma {:induction false} OthersKeepNothing(j: Journal, writes: seq<Written>, p: string)
    requires forall i :: 0 <= i < |writes| ==> writes[i].path != p
    ensures p in AfterWrites(j, writes).backups <==> p in j.backups
    ensures p in j.backups ==> AfterWrites(j, writes).backups[p] == j.backups[p]
  {
    if writes != [] { OthersKeepNothing(j, writes[..|writes|-1], p); }
  }

  /** For the primary file these are the bytes from which the current value was
      read, whatever it held when it was written. */
  lemma PrimaryKeepsWhatWasRead(j: Journal, primary: string, current: string, snapshot: string, writes: seq<Written>)
    ensures var after := AfterWrites(WithCurrent(j, primary, current, snapshot), writes).backups;
            primary in after && after[primary] == snapshot
  {
    var read := WithCurrent(j, primary, current, snapshot);
    KeptOnceTaken(read, writes, primary);
  }

  lemma {:induction false} KeptOnceTaken(j: Journal, writes: seq<Written>, p: string)
    requires p in j.backups
    ensures p in AfterWrites(j, writes).backups && AfterWrites(j, writes).backups[p] == j.backups[p]
  {
    if writes != [] { KeptOnceTaken(j, writes[..|writes|-1], p); }
  }

  // ---------------------------------------------------------------- the object

  class Rotation {
    const kind: Kind
    const primary: string
    var step: StepName
    var previous: string
    var next: string
    var fileBackups: Files
    var writtenFiles: seq<string>
    var restarted: seq<string>

    function View(): Journal
      reads this
    {
      Journal(step, previous, next, fileBackups, writtenFiles, restarted)
    }

    constructor Begin(kind: Kind, primary: string)
      ensures View() == EMPTY && this.kind == kind && this.primary == primary
    {
      this.kind, this.primary := kind, primary;
      step, previous, next := Pending, "", "";
      fileBackups, writtenFiles, restarted := map[], [], [];
    }

    method AdvanceTo(to: StepName)
      modifies this`step
      ensures step == Advance(old(step), to)
    {
      if Rank(to) > Rank(step) {
        step := to;
      }
    }

    method RecordCurrentValue(current: string, primarySnapshot: string)
      modifies this
      ensures View() == WithCurrent(old(View()), primary, current, primarySnapshot)
    {
      previous := current;
      fileBackups := fileBackups[primary := primarySnapshot];
      AdvanceTo(Read);
    }

    method RecordGenerated(value: string)
      modifies this
      ensures View() == WithGenerated(old(View()), value)
    {
      next := value;
      AdvanceTo(Generated);
    }

    method RecordApplied()
      modifies this
      ensures View() == WithStep(old(View()), Applied)
    {
      AdvanceTo(Applied);
    }

    method RecordVerified()
      modifies this
      ensures View() == WithStep(old(View()), Verified)
    {
      AdvanceTo(Verified);
    }

    method RecordFileWritten(path: string, snapshot: string)
      modifies this
      ensures View() == WithFileWritten(old(View()), path, snapshot)
    {
      if path !in fileBackups {
        fileBackups := fileBackups[path := snapshot];
      }
      writtenFiles := writtenFiles + [path];
      AdvanceTo(FilesUpdated);
    }

    method RecordRestarted(containers: seq<string>)
      modifies this
      ensures View() == WithRestarted(old(View()), containers)
    {
      restarted := containers;
      AdvanceTo(Restarted);
    }

    method RecordDone()
      modifies this
      ensures View() == WithStep(old(View()), Done)
    {
      AdvanceTo(Done);
    }

    method CompensationPlan() returns (plan: seq<Action>)
      ensures plan == Plan(kind, View())
    {
      plan := [];
      if Rank(step) < Rank(Generated) {
        return;
      }
      for i := 0 to |writtenFiles|
        invariant plan == FileActions(writtenFiles[..i], fileBackups)
      {
        assert writtenFiles[..i+1][..i] == writtenFiles[..i];
        var path := writtenFiles[i];
        if path in fileBackups {
          plan := plan + [RestoreFileAction(path, fileBackups[path])];
        }
      }
      assert writtenFiles[..|writtenFiles|] == writtenFiles;
      if Rank(step) >= Rank(Restarted) && |restarted| > 0 {
        plan := plan + [RestartAction(restarted)];
      }
      if Rank(step) >= Rank(Applied) && HasBackingService(kind) {
        plan := plan + [RestoreCredentialAction];
      }
    }
  }
}
