/** The daemon: any number of triggers, each going through the executor with
    its try-lock, interleaved in any way. */
module Scheduling {
  import opened EnvFiles
  import opened Domain
  import opened Saga
  import opened Footprint
  import opened Guarantees
  import opened Chain

  /** Where one trigger's call of the executor is.  A mutex is named by the
      call that allocated it: every `get` offers a fresh one. */
  datatype Job =
    | Waiting
    | Holding(mutex: nat)                 // the table answered; not tried yet
    | Running(mutex: nat, local: Local)   // the try-lock succeeded
    | Skipped
    | Returned(local: Local)

  /** `table` is the lock table, `held` the locked mutexes. */
  datatype Daemon = Daemon(world: World, table: map<string, nat>, held: set<nat>, jobs: seq<Job>)

  /** One scheduler decision: which call moves, and what the outside answers. */
  datatype Turn = Turn(job: nat, fate: Fate)

  ghost predicate ValidTriggers(triggers: seq<Secret>)
  {
    forall i :: 0 <= i < |triggers| ==> ValidSecret(triggers[i])
  }

  function Initial(triggers: seq<Secret>, w0: World): Daemon
  {
    Daemon(w0, map[], {}, seq(|triggers|, i => Waiting))
  }

  /** One move of call i. */
  function Move(triggers: seq<Secret>, d: Daemon, i: nat, f: Fate): Daemon
    requires i < |triggers| == |d.jobs| && |triggers[i].envFiles| > 0
  {
    var s := triggers[i];
    match d.jobs[i]
    case Waiting =>   // LoadOrStore
      if s.name in d.table then d.(jobs := d.jobs[i := Holding(d.table[s.name])])
      else d.(table := d.table[s.name := i], jobs := d.jobs[i := Holding(i)])
    case Holding(m) =>   // TryLock
      if m in d.held then d.(jobs := d.jobs[i := Skipped])
      else d.(held := d.held + {m}, jobs := d.jobs[i := Running(m, Start(s))])
    case Running(m, l) =>   // one step of the rotation, or Unlock
      if l.phase.Finished? then d.(held := d.held - {m}, jobs := d.jobs[i := Returned(l)])
      else
        var r := Step(s, State(l, d.world), f);
        d.(world := r.world, jobs := d.jobs[i := Running(m, r.local)])
    case Skipped => d
    case Returned(_) => d
  }

  predicate ValidSchedule(triggers: seq<Secret>, turns: seq<Turn>)
  {
    forall k :: 0 <= k < |turns| ==> turns[k].job < |triggers|
  }

  /** The daemon after any interleaving of its calls. */
  ghost function After(triggers: seq<Secret>, w0: World, turns: seq<Turn>): (d: Daemon)
    requires ValidTriggers(triggers) && ValidSchedule(triggers, turns)
    ensures |d.jobs| == |triggers|
  {
    if turns == [] then Initial(triggers, w0)
    else
      var last := turns[|turns|-1];
      Move(triggers, After(triggers, w0, turns[..|turns|-1]), last.job, last.fate)
  }

  // ---------------------------------------------------------------- mutual exclusion

  /** One mutex per name; a held mutex has exactly one running owner. */
  ghost predicate LockInv(triggers: seq<Secret>, d: Daemon)
    requires |d.jobs| == |triggers|
  {
    && (forall n :: n in d.table ==> d.table[n] < |triggers| && triggers[d.table[n]].name == n)
    && (forall i :: 0 <= i < |triggers| && (d.jobs[i].Holding? || d.jobs[i].Running?) ==>
          triggers[i].name in d.table && d.table[triggers[i].name] == d.jobs[i].mutex)
    && (forall i :: 0 <= i < |triggers| && d.jobs[i].Running? ==> d.jobs[i].mutex in d.held)
    && (forall m :: m in d.held ==> Owned(d, m))
    && (forall i, j :: 0 <= i < j < |triggers| && d.jobs[i].Running? && d.jobs[j].Running? ==>
          d.jobs[i].mutex != d.jobs[j].mutex)
    && (forall i :: 0 <= i < |triggers| && d.jobs[i].Running? ==> Own(triggers[i], d.jobs[i].local))
  }

  ghost predicate Owned(d: Daemon, m: nat)
  {
    exists i :: 0 <= i < |d.jobs| && d.jobs[i].Running? && d.jobs[i].mutex == m
  }

  lemma MoveKeepsOwners(triggers: seq<Secret>, d: Daemon, i: nat, f: Fate)
    requires i < |triggers| == |d.jobs| && |triggers[i].envFiles| > 0 && LockInv(triggers, d)
    ensures var d' := Move(triggers, d, i, f); forall m :: m in d'.held ==> Owned(d', m)
  {
    hide Step, Own;
    var d' := Move(triggers, d, i, f);
    forall m | m in d'.held ensures Owned(d', m) {
      if m in d.held {
        assert Owned(d, m);
        var k :| 0 <= k < |triggers| && d.jobs[k].Running? && d.jobs[k].mutex == m;
        assert d'.jobs[k].Running?;
      } else {
        assert d'.jobs[i].Running?;
      }
    }
  }

  lemma MoveKeepsLockInv(triggers: seq<Secret>, d: Daemon, i: nat, f: Fate)
    requires i < |triggers| == |d.jobs| && |triggers[i].envFiles| > 0 && LockInv(triggers, d)
    ensures LockInv(triggers, Move(triggers, d, i, f))
  {
    hide Step, LockInv, Own, Owned, Start;
    match d.jobs[i] {
      case Waiting => GetKeepsLockInv(triggers, d, i, f);
      case Holding(_) => TryLockKeepsLockInv(triggers, d, i, f);
      case Running(_, l) =>
        if l.phase.Finished? {
          ReleaseKeepsLockInv(triggers, d, i, f);
        } else {
          RunningKeepsLockInv(triggers, d, i, f);
        }
      case _ =>
    }
  }

  lemma GetKeepsLockInv(triggers: seq<Secret>, d: Daemon, i: nat, f: Fate)
    requires i < |triggers| == |d.jobs| && |triggers[i].envFiles| > 0 && LockInv(triggers, d) && d.jobs[i].Waiting?
    ensures LockInv(triggers, Move(triggers, d, i, f))
  {
    MoveKeepsOwners(triggers, d, i, f);
    hide Step, Own, Owned, Start;
  }

  lemma TryLockKeepsLockInv(triggers: seq<Secret>, d: Daemon, i: nat, f: Fate)
    requires i < |triggers| == |d.jobs| && |triggers[i].envFiles| > 0 && LockInv(triggers, d) && d.jobs[i].Holding?
    ensures LockInv(triggers, Move(triggers, d, i, f))
  {
    MoveKeepsOwners(triggers, d, i, f);
    StartOwn(triggers[i]);
    hide Step, Own, Owned, Start;
  }

  lemma ReleaseKeepsLockInv(triggers: seq<Secret>, d: Daemon, i: nat, f: Fate)
    requires i < |triggers| == |d.jobs| && |triggers[i].envFiles| > 0 && LockInv(triggers, d)
    requires d.jobs[i].Running? && d.jobs[i].local.phase.Finished?
    ensures LockInv(triggers, Move(triggers, d, i, f))
  {
    MoveKeepsOwners(triggers, d, i, f);
    var d' := Move(triggers, d, i, f);
    assert d' == d.(held := d.held - {d.jobs[i].mutex}, jobs := d.jobs[i := Returned(d.jobs[i].local)]);
    hide Move, Own, Owned;
  }

  lemma RunningKeepsLockInv(triggers: seq<Secret>, d: Daemon, i: nat, f: Fate)
    requires i < |triggers| == |d.jobs| && |triggers[i].envFiles| > 0 && LockInv(triggers, d)
    requires d.jobs[i].Running? && !d.jobs[i].local.phase.Finished?
    ensures LockInv(triggers, Move(triggers, d, i, f))
  {
    MoveKeepsOwners(triggers, d, i, f);
    OwnJob(triggers, d, i);
    StepKeepsOwn(triggers[i], State(d.jobs[i].local, d.world), f);
    var d', r := Move(triggers, d, i, f), Step(triggers[i], State(d.jobs[i].local, d.world), f);
    assert d' == d.(world := r.world, jobs := d.jobs[i := Running(d.jobs[i].mutex, r.local)]);
    hide Move, Step, Own, Owned;
  }

  lemma {:induction false} ReachableLockInv(triggers: seq<Secret>, w0: World, turns: seq<Turn>)
    requires ValidTriggers(triggers) && ValidSchedule(triggers, turns)
    ensures LockInv(triggers, After(triggers, w0, turns))
  {
    hide Move, ValidSecret;
    if turns == [] {
      assert LockInv(triggers, Initial(triggers, w0));
    } else {
      var init, last := turns[..|turns|-1], turns[|turns|-1];
      ReachableLockInv(triggers, w0, init);
      assert ValidSecret(triggers[last.job]);
      HasFiles(triggers[last.job]);
      MoveKeepsLockInv(triggers, After(triggers, w0, init), last.job, last.fate);
    }
  }

  /** In every interleaving of any number of triggers, at most one rotation of
      each secret is in flight. */
  lemma AtMostOneInFlight(triggers: seq<Secret>, w0: World, turns: seq<Turn>, i: nat, j: nat)
    requires ValidTriggers(triggers) && ValidSchedule(triggers, turns)
    requires i < |triggers| && j < |triggers| && i != j
    requires After(triggers, w0, turns).jobs[i].Running? && After(triggers, w0, turns).jobs[j].Running?
    ensures triggers[i].name != triggers[j].name
  {
    ReachableLockInv(triggers, w0, turns);
  }

  /** A trigger is skipped only while a rotation of the same secret is in flight. */
  lemma SkippedOnlyForAnother(triggers: seq<Secret>, w0: World, turns: seq<Turn>, i: nat, f: Fate)
    requires ValidTriggers(triggers) && ValidSchedule(triggers, turns) && i < |triggers|
    requires !After(triggers, w0, turns).jobs[i].Skipped?
    requires Move(triggers, After(triggers, w0, turns), i, f).jobs[i].Skipped?
    ensures exists j :: 0 <= j < |triggers| && j != i && After(triggers, w0, turns).jobs[j].Running?
              && triggers[j].name == triggers[i].name
  {
    ReachableLockInv(triggers, w0, turns);
    hide After, Step, Own;
    var d := After(triggers, w0, turns);
    assert Owned(d, d.jobs[i].mutex);
    var j :| 0 <= j < |triggers| && d.jobs[j].Running? && d.jobs[j].mutex == d.jobs[i].mutex;
    assert triggers[d.table[triggers[j].name]].name == triggers[j].name;
    assert triggers[d.table[triggers[i].name]].name == triggers[i].name;
  }

  // ---------------------------------------------------------------- one secret among others

  /** Every trigger of this name is for this secret, and no other trigger writes
      a file or an account that this secret's rotation uses. */
  ghost predicate Independent(triggers: seq<Secret>, s: Secret)
  {
    forall i :: 0 <= i < |triggers| ==>
      if triggers[i].name == s.name then triggers[i] == s
      else FilesOf(s) !! FilesOf(triggers[i]) && Owner(triggers[i]) !in AccountsOf(s)
  }

  /** The turns of this secret's triggers. */
  function Only(triggers: seq<Secret>, turns: seq<Turn>, name: string): (own: seq<Turn>)
    requires ValidSchedule(triggers, turns)
    ensures ValidSchedule(triggers, own)
    ensures forall k :: 0 <= k < |own| ==> triggers[own[k].job].name == name
  {
    if turns == [] then []
    else
      var init, last := turns[..|turns|-1], turns[|turns|-1];
      if triggers[last.job].name == name then Only(triggers, init, name) + [last] else Only(triggers, init, name)
  }

  /** Two daemons that this secret cannot tell apart. */
  ghost predicate SameFor(triggers: seq<Secret>, s: Secret, d1: Daemon, d2: Daemon)
    requires |d1.jobs| == |triggers| == |d2.jobs|
  {
    && AgreeOn(FilesOf(s), AccountsOf(s), d1.world, d2.world)
    && (s.name in d1.table <==> s.name in d2.table)
    && (s.name in d1.table ==> d1.table[s.name] == d2.table[s.name]
                               && (d1.table[s.name] in d1.held <==> d1.table[s.name] in d2.held))
    && (forall i :: 0 <= i < |triggers| && triggers[i].name == s.name ==> d1.jobs[i] == d2.jobs[i])
  }

  lemma OwnMoveKeepsSame(triggers: seq<Secret>, s: Secret, d1: Daemon, d2: Daemon, i: nat, f: Fate)
    requires i < |triggers| && |d1.jobs| == |triggers| == |d2.jobs| && |s.envFiles| > 0
    requires triggers[i] == s && LockInv(triggers, d1) && LockInv(triggers, d2) && SameFor(triggers, s, d1, d2)
    requires forall n :: n in d2.table ==> n == s.name
    ensures SameFor(triggers, s, Move(triggers, d1, i, f), Move(triggers, d2, i, f))
  {
    var job := d1.jobs[i];
    OwnJob(triggers, d1, i);
    OwnMutex(triggers, s, d1, i);
    OwnMutex(triggers, s, d2, i);
    hide Step, LockInv, Own, FilesOf, AccountsOf, AgreeOn, Start;
    if job.Running? && !job.local.phase.Finished? {
      StepIsLocal(s, job.local, d1.world, d2.world, FilesOf(s), AccountsOf(s), f);
    }
  }

  lemma OwnMutex(triggers: seq<Secret>, s: Secret, d: Daemon, i: nat)
    requires i < |triggers| == |d.jobs| && triggers[i] == s && LockInv(triggers, d)
    ensures d.jobs[i].Holding? || d.jobs[i].Running? ==> s.name in d.table && d.table[s.name] == d.jobs[i].mutex
    ensures s.name in d.table ==> d.table[s.name] < |triggers| && triggers[d.table[s.name]].name == s.name
    ensures s.name !in d.table ==> i !in d.held
  {
    hide Own;
  }

  lemma OtherMoveKeepsSame(triggers: seq<Secret>, s: Secret, d1: Daemon, d2: Daemon, i: nat, f: Fate)
    requires i < |triggers| && |d1.jobs| == |triggers| == |d2.jobs| && |triggers[i].envFiles| > 0
    requires triggers[i].name != s.name && Independent(triggers, s)
    requires LockInv(triggers, d1) && SameFor(triggers, s, d1, d2)
    ensures SameFor(triggers, s, Move(triggers, d1, i, f), d2)
  {
    OwnJob(triggers, d1, i);
    OtherMoveEffect(triggers, s, d1, i, f);
    assert FilesOf(s) !! FilesOf(triggers[i]) && Owner(triggers[i]) !in AccountsOf(s);
    hide Step, Move, LockInv, Own, Owner, FilesOf, AccountsOf, AgreeOn, Start, Independent;
    var job := d1.jobs[i];
    if job.Running? && !job.local.phase.Finished? {
      OtherStepAgrees(triggers[i], s, job.local, d1.world, d2.world, f);
    }
  }

  /** What a move of another secret's job leaves as it was. */
  lemma OtherMoveEffect(triggers: seq<Secret>, s: Secret, d: Daemon, i: nat, f: Fate)
    requires i < |triggers| == |d.jobs| && |triggers[i].envFiles| > 0
    requires triggers[i].name != s.name && LockInv(triggers, d)
    ensures var d', job := Move(triggers, d, i, f), d.jobs[i];
            && (s.name in d'.table <==> s.name in d.table)
            && (s.name in d.table ==>
                  d'.table[s.name] == d.table[s.name] && (d.table[s.name] in d'.held <==> d.table[s.name] in d.held))
            && (forall k :: 0 <= k < |triggers| && k != i ==> d'.jobs[k] == d.jobs[k])
            && d'.world == if job.Running? && !job.local.phase.Finished?
                           then Step(triggers[i], State(job.local, d.world), f).world else d.world
  {
    OtherMutex(triggers, s, d, i);
    hide Step, LockInv, Start;
  }

  lemma OtherStepAgrees(other: Secret, s: Secret, l: Local, w1: World, w2: World, f: Fate)
    requires |other.envFiles| > 0 && Own(other, l) && AgreeOn(FilesOf(s), AccountsOf(s), w1, w2)
    requires FilesOf(s) !! FilesOf(other) && Owner(other) !in AccountsOf(s)
    ensures AgreeOn(FilesOf(s), AccountsOf(s), Step(other, State(l, w1), f).world, w2)
  {
    hide Step, FilesOf, AccountsOf, AgreeOn;
    StepStaysInside(other, l, w1, f, FilesOf(s), AccountsOf(s));
    AgreeTrans(FilesOf(s), AccountsOf(s), Step(other, State(l, w1), f).world, w1, w2);
  }

  lemma OwnJob(triggers: seq<Secret>, d: Daemon, i: nat)
    requires i < |triggers| == |d.jobs| && LockInv(triggers, d)
    ensures d.jobs[i].Running? ==> Own(triggers[i], d.jobs[i].local)
  {
    hide Own;
  }

  lemma OtherMutex(triggers: seq<Secret>, s: Secret, d: Daemon, i: nat)
    requires i < |triggers| == |d.jobs| && triggers[i].name != s.name && LockInv(triggers, d)
    ensures (d.jobs[i].Holding? || d.jobs[i].Running?) && s.name in d.table ==> d.table[s.name] != d.jobs[i].mutex
  {
    hide Own, Owned;
  }

  lemma AgreeTrans(F: set<string>, A: set<Account>, w1: World, w: World, w2: World)
    requires AgreeOn(F, A, w, w1) && AgreeOn(F, A, w, w2)
    ensures AgreeOn(F, A, w1, w2)
  {}

  lemma {:induction false} OwnTable(triggers: seq<Secret>, w0: World, turns: seq<Turn>, name: string)
    requires ValidTriggers(triggers) && ValidSchedule(triggers, turns)
    requires forall k :: 0 <= k < |turns| ==> triggers[turns[k].job].name == name
    ensures forall n :: n in After(triggers, w0, turns).table ==> n == name
    ensures forall i :: 0 <= i < |triggers| && triggers[i].name != name ==>
              After(triggers, w0, turns).jobs[i] == Waiting
  {
    hide Step, ValidSecret;
    if turns != [] {
      HasFiles(triggers[turns[|turns|-1].job]);
      OwnTable(triggers, w0, turns[..|turns|-1], name);
    }
  }

  /** Whatever the other triggers do, this secret's calls, files and credential
      are what they would be if its own triggers were the only ones. */
  lemma {:induction false} OthersDoNotMatter(triggers: seq<Secret>, s: Secret, w0: World, turns: seq<Turn>)
    requires ValidTriggers(triggers) && ValidSchedule(triggers, turns) && ValidSecret(s) && Independent(triggers, s)
    ensures SameFor(triggers, s, After(triggers, w0, turns), After(triggers, w0, Only(triggers, turns, s.name)))
  {
    hide Move, LockInv, SameFor, ValidSecret, Step;
    if turns == [] {
      SameForSelf(triggers, s, Initial(triggers, w0));
    } else {
      var init, last := turns[..|turns|-1], turns[|turns|-1];
      var own := Only(triggers, init, s.name);
      OthersDoNotMatter(triggers, s, w0, init);
      ReachableLockInv(triggers, w0, init);
      ReachableLockInv(triggers, w0, own);
      HasFiles(triggers[last.job]);
      if triggers[last.job].name == s.name {
        OwnTable(triggers, w0, own, s.name);
        assert (own + [last])[..|own|] == own;
        OwnMoveKeepsSame(triggers, s, After(triggers, w0, init), After(triggers, w0, own), last.job, last.fate);
      } else {
        OtherMoveKeepsSame(triggers, s, After(triggers, w0, init), After(triggers, w0, own), last.job, last.fate);
      }
    }
  }

  lemma SameForSelf(triggers: seq<Secret>, s: Secret, d: Daemon)
    requires |d.jobs| == |triggers|
    ensures SameFor(triggers, s, d, d)
  {
    NothingChanged(FilesOf(s), AccountsOf(s), d.world);
  }

  // ---------------------------------------------------------------- one rotation after another

  /** The rotations of the schedule with the fates they met, in the order in
      which they took the lock. */
  ghost function History(triggers: seq<Secret>, w0: World, turns: seq<Turn>): seq<Rotated>
    requires ValidTriggers(triggers) && ValidSchedule(triggers, turns)
  {
    if turns == [] then []
    else
      var init, last := turns[..|turns|-1], turns[|turns|-1];
      var d, runs := After(triggers, w0, init), History(triggers, w0, init);
      match d.jobs[last.job]
      case Holding(m) => if m in d.held then runs else runs + [Rotated(triggers[last.job], [])]
      case Running(_, l) => if l.phase.Finished? || runs == [] then runs else WithFate(runs, last.fate)
      case _ => runs
  }

  /** The last rotation meets one more fate. */
  function WithFate(runs: seq<Rotated>, f: Fate): seq<Rotated>
    requires runs != []
  {
    var last := runs[|runs|-1];
    runs[..|runs|-1] + [Rotated(last.secret, last.fates + [f])]
  }

  ghost predicate OneAtMost(d: Daemon)
  {
    forall i, j :: 0 <= i < j < |d.jobs| && d.jobs[i].Running? ==> !d.jobs[j].Running?
  }

  /** No two rotations, of whatever secrets, are ever in flight together. */
  ghost predicate NeverOverlap(triggers: seq<Secret>, w0: World, turns: seq<Turn>)
    requires ValidTriggers(triggers) && ValidSchedule(triggers, turns)
  {
    forall n :: 0 <= n <= |turns| ==> OneAtMost(After(triggers, w0, turns[..n]))
  }

  /** Where the last rotation is. */
  ghost function LastState(w0: World, runs: seq<Rotated>): State
    requires runs != []
  {
    RunOf(AfterEach(w0, runs[..|runs|-1]), runs[|runs|-1])
  }

  /** The schedule so far is a chain of rotations, of which only the last may be
      unfinished; it is the one in flight. */
  ghost predicate SerialInv(triggers: seq<Secret>, w0: World, d: Daemon, runs: seq<Rotated>)
    requires |d.jobs| == |triggers|
  {
    && d.world == AfterEach(w0, runs)
    && (forall k :: 0 <= k < |runs| ==> runs[k].secret in triggers)
    && (forall k :: 0 < k < |runs| ==> LastState(w0, runs[..k]).local.phase.Finished?)
    && (forall i :: 0 <= i < |triggers| && d.jobs[i].Running? ==>
          runs != [] && runs[|runs|-1].secret == triggers[i] && LastState(w0, runs).local == d.jobs[i].local)
    && (runs != [] && !LastState(w0, runs).local.phase.Finished? ==>
          exists i :: 0 <= i < |triggers| && d.jobs[i].Running?)
  }

  lemma LastSnoc(w0: World, runs: seq<Rotated>, r: Rotated)
    ensures LastState(w0, runs + [r]) == RunOf(AfterEach(w0, runs), r)
    ensures AfterEach(w0, runs + [r]) == RunOf(AfterEach(w0, runs), r).world
  {
    hide RunOf;
    assert (runs + [r])[..|runs|] == runs;
  }

  /** Taking the lock starts a new rotation where the last one ended. */
  lemma AcquireKeepsSerial(triggers: seq<Secret>, w0: World, d: Daemon, runs: seq<Rotated>, d': Daemon, i: nat)
    requires |d.jobs| == |triggers| == |d'.jobs| && SerialInv(triggers, w0, d, runs)
    requires forall k :: 0 <= k < |triggers| ==> !d.jobs[k].Running?
    requires i < |triggers| && d'.world == d.world
    requires d'.jobs[i].Running? && d'.jobs[i].local == Start(triggers[i])
    requires forall k :: 0 <= k < |triggers| && k != i ==> !d'.jobs[k].Running?
    ensures SerialInv(triggers, w0, d', runs + [Rotated(triggers[i], [])])
  {
    hide RunOf, AfterEach, LastState;
    var r := Rotated(triggers[i], []);
    LastSnoc(w0, runs, r);
    JustStarted(d.world, r);
    Prefixes(runs, r);
  }

  lemma JustStarted(w: World, r: Rotated)
    requires r.fates == []
    ensures RunOf(w, r) == State(Start(r.secret), w)
  {}

  lemma Prefixes(runs: seq<Rotated>, r: Rotated)
    ensures forall k :: 0 <= k < |runs| ==> (runs + [r])[k] == runs[k]
    ensures forall k :: 0 <= k <= |runs| ==> (runs + [r])[..k] == runs[..k]
    ensures runs[..|runs|] == runs
  {}

  /** A step of the rotation in flight extends the last run. */
  lemma StepKeepsSerial(triggers: seq<Secret>, w0: World, d: Daemon, runs: seq<Rotated>, d': Daemon, i: nat, f: Fate)
    requires |d.jobs| == |triggers| == |d'.jobs| && SerialInv(triggers, w0, d, runs)
    requires i < |triggers| && d.jobs[i].Running? && |triggers[i].envFiles| > 0
    requires var r := Step(triggers[i], State(d.jobs[i].local, d.world), f);
             d'.world == r.world && d'.jobs[i].Running? && d'.jobs[i].local == r.local
    requires forall k :: 0 <= k < |triggers| && k != i ==> !d'.jobs[k].Running?
    ensures runs != [] && SerialInv(triggers, w0, d', WithFate(runs, f))
  {
    hide Step, RunOf, AfterEach, LastState;
    var init, last := runs[..|runs|-1], runs[|runs|-1];
    assert runs == init + [last];
    var more := Rotated(last.secret, last.fates + [f]);
    LastSnoc(w0, init, last);
    LastSnoc(w0, init, more);
    OneMoreStep(AfterEach(w0, init), last, f);
    Prefixes(init, last);
    Prefixes(init, more);
  }

  lemma OneMoreStep(w: World, r: Rotated, f: Fate)
    requires |r.secret.envFiles| > 0
    ensures RunOf(w, Rotated(r.secret, r.fates + [f])) == Step(r.secret, RunOf(w, r), f)
  {
    hide Step, Run;
    RunSnoc(r.secret, w, r.fates, f);
  }

  lemma ReleaseKeepsSerial(triggers: seq<Secret>, w0: World, d: Daemon, runs: seq<Rotated>, d': Daemon, i: nat)
    requires |d.jobs| == |triggers| == |d'.jobs| && SerialInv(triggers, w0, d, runs)
    requires i < |triggers| && d.jobs[i].Running? && d.jobs[i].local.phase.Finished? && d'.world == d.world
    requires forall k :: 0 <= k < |triggers| ==> !d'.jobs[k].Running?
    ensures SerialInv(triggers, w0, d', runs)
  {
    hide AfterEach, LastState;
  }

  lemma IdleKeepsSerial(triggers: seq<Secret>, w0: World, d: Daemon, runs: seq<Rotated>, d': Daemon)
    requires |d.jobs| == |triggers| == |d'.jobs| && SerialInv(triggers, w0, d, runs)
    requires d'.world == d.world
    requires forall k :: 0 <= k < |triggers| ==>
               (d'.jobs[k].Running? <==> d.jobs[k].Running?) && (d.jobs[k].Running? ==> d'.jobs[k] == d.jobs[k])
    ensures SerialInv(triggers, w0, d', runs)
  {
    hide AfterEach, LastState;
    if i :| 0 <= i < |triggers| && d.jobs[i].Running? {
      assert d'.jobs[i].Running?;
    }
  }

  lemma EmptySchedule(triggers: seq<Secret>, w0: World)
    ensures SerialInv(triggers, w0, Initial(triggers, w0), []) && OneAtMost(Initial(triggers, w0))
  {}

  /** One move of a schedule that never overlaps. */
  lemma MoveKeepsSerial(triggers: seq<Secret>, w0: World, d: Daemon, runs: seq<Rotated>, i: nat, f: Fate)
    requires i < |triggers| == |d.jobs| && |triggers[i].envFiles| > 0 && SerialInv(triggers, w0, d, runs)
    requires OneAtMost(d) && OneAtMost(Move(triggers, d, i, f))
    ensures var job := d.jobs[i];
            job.Running? && !job.local.phase.Finished? ==> runs != []
    ensures var job, d' := d.jobs[i], Move(triggers, d, i, f);
            SerialInv(triggers, w0, d',
              if job.Holding? && job.mutex !in d.held then runs + [Rotated(triggers[i], [])]
              else if job.Running? && !job.local.phase.Finished? then WithFate(runs, f)
              else runs)
  {
    hide Step, SerialInv, Start, WithFate;
    var job, d' := d.jobs[i], Move(triggers, d, i, f);
    if job.Holding? && job.mutex !in d.held {
      OthersRest(d', i);
      assert forall k :: 0 <= k < |triggers| && k != i ==> d.jobs[k] == d'.jobs[k];
      AcquireKeepsSerial(triggers, w0, d, runs, d', i);
    } else if job.Running? {
      OthersRest(d, i);
      assert forall k :: 0 <= k < |triggers| && k != i ==> d.jobs[k] == d'.jobs[k];
      if job.local.phase.Finished? {
        ReleaseKeepsSerial(triggers, w0, d, runs, d', i);
      } else {
        StepKeepsSerial(triggers, w0, d, runs, d', i, f);
      }
    } else {
      IdleKeepsSerial(triggers, w0, d, runs, d');
    }
  }

  lemma OthersRest(d: Daemon, i: nat)
    requires i < |d.jobs| && d.jobs[i].Running? && OneAtMost(d)
    ensures forall k :: 0 <= k < |d.jobs| && k != i ==> !d.jobs[k].Running?
  {}

  lemma NeverOverlapPrefix(triggers: seq<Secret>, w0: World, turns: seq<Turn>)
    requires ValidTriggers(triggers) && ValidSchedule(triggers, turns) && NeverOverlap(triggers, w0, turns)
    requires turns != []
    ensures NeverOverlap(triggers, w0, turns[..|turns|-1])
    ensures OneAtMost(After(triggers, w0, turns[..|turns|-1])) && OneAtMost(After(triggers, w0, turns))
  {
    hide After, OneAtMost;
    var init := turns[..|turns|-1];
    assert forall n :: 0 <= n <= |init| ==> init[..n] == turns[..n];
    assert turns[..|turns|] == turns;
  }

  /** A schedule that never overlaps amounts to rotations one after the other. */
  lemma {:induction false} ScheduleIsSerial(triggers: seq<Secret>, w0: World, turns: seq<Turn>)
    requires ValidTriggers(triggers) && ValidSchedule(triggers, turns) && NeverOverlap(triggers, w0, turns)
    ensures SerialInv(triggers, w0, After(triggers, w0, turns), History(triggers, w0, turns))
  {
    hide SerialInv, NeverOverlap, OneAtMost, Move, WithFate, ValidSecret;
    if turns == [] {
      EmptySchedule(triggers, w0);
    } else {
      var init, last := turns[..|turns|-1], turns[|turns|-1];
      NeverOverlapPrefix(triggers, w0, turns);
      ScheduleIsSerial(triggers, w0, init);
      assert ValidSecret(triggers[last.job]);
      HasFiles(triggers[last.job]);
      MoveKeepsSerial(triggers, w0, After(triggers, w0, init), History(triggers, w0, init), last.job, last.fate);
    }
  }

  /** The triggers of one secret never overlap. */
  lemma {:induction false} OwnNeverOverlap(triggers: seq<Secret>, w0: World, turns: seq<Turn>, name: string)
    requires ValidTriggers(triggers) && ValidSchedule(triggers, turns)
    requires forall k :: 0 <= k < |turns| ==> triggers[turns[k].job].name == name
    ensures NeverOverlap(triggers, w0, turns)
  {
    forall n | 0 <= n <= |turns| ensures OneAtMost(After(triggers, w0, turns[..n])) {
      OwnTable(triggers, w0, turns[..n], name);
      ReachableLockInv(triggers, w0, turns[..n]);
      OnlyOneRuns(triggers, After(triggers, w0, turns[..n]), name);
      hide After, OneAtMost;
    }
  }

  lemma OnlyOneRuns(triggers: seq<Secret>, d: Daemon, name: string)
    requires |d.jobs| == |triggers| && LockInv(triggers, d)
    requires forall k :: 0 <= k < |triggers| && triggers[k].name != name ==> d.jobs[k] == Waiting
    ensures OneAtMost(d)
  {
    hide Own, Owned;
  }

  lemma {:induction false} OwnHistory(triggers: seq<Secret>, s: Secret, w0: World, turns: seq<Turn>)
    requires ValidTriggers(triggers) && ValidSchedule(triggers, turns) && Independent(triggers, s)
    requires forall k :: 0 <= k < |turns| ==> triggers[turns[k].job].name == s.name
    ensures forall k :: 0 <= k < |History(triggers, w0, turns)| ==> History(triggers, w0, turns)[k].secret == s
  {
    hide After, ValidSecret, FilesOf, AccountsOf;
    if turns != [] {
      var last := turns[|turns|-1];
      OwnHistory(triggers, s, w0, turns[..|turns|-1]);
      assert triggers[last.job] == s;
    }
  }

  /** The finished rotations of a serial schedule: all, when none is in flight,
      else all but the last. */
  ghost predicate AllFinished(w0: World, runs: seq<Rotated>, n: nat)
    requires n <= |runs|
  {
    forall k :: 0 < k <= n ==> LastState(w0, runs[..k]).local.phase.Finished?
  }

  lemma SerialFinished(triggers: seq<Secret>, w0: World, d: Daemon, runs: seq<Rotated>)
    requires |d.jobs| == |triggers| && SerialInv(triggers, w0, d, runs)
    ensures runs != [] ==> AllFinished(w0, runs, |runs| - 1)
    ensures (forall i :: 0 <= i < |triggers| ==> !d.jobs[i].Running?) ==> AllFinished(w0, runs, |runs|)
  {
    hide AfterEach, LastState;
    assert runs[..|runs|] == runs;
  }

  /** Over every interleaving of any number of cron and policy triggers, the
      files and the credential of a secret that shares neither with another
      are those of its own rotations run alone, one after the other. */
  lemma InterleavingIsSerial(triggers: seq<Secret>, s: Secret, w0: World, turns: seq<Turn>)
    requires ValidTriggers(triggers) && ValidSchedule(triggers, turns) && ValidSecret(s) && Independent(triggers, s)
    ensures var runs := History(triggers, w0, Only(triggers, turns, s.name));
            && (forall k :: 0 <= k < |runs| ==> runs[k].secret == s)
            && AgreeOn(FilesOf(s), AccountsOf(s), After(triggers, w0, turns).world, AfterEach(w0, runs))
            && (runs != [] ==> AllFinished(w0, runs, |runs| - 1))
            && ((forall i :: 0 <= i < |triggers| && triggers[i].name == s.name ==>
                   !After(triggers, w0, turns).jobs[i].Running?)
                  ==> AllFinished(w0, runs, |runs|))
  {
    hide AfterEach, AgreeOn, FilesOf, AccountsOf, Move, History, AllFinished, NeverOverlap, ValidSecret, LastState;
    var own := Only(triggers, turns, s.name);
    OthersDoNotMatter(triggers, s, w0, turns);
    OwnNeverOverlap(triggers, w0, own, s.name);
    ScheduleIsSerial(triggers, w0, own);
    SerialFinished(triggers, w0, After(triggers, w0, own), History(triggers, w0, own));
    OwnTable(triggers, w0, own, s.name);
    OwnHistory(triggers, s, w0, own);
  }

  /** A daemon whose rotations of a secret each end well keeps its files and
      its service in step, however they interleave with other secrets. */
  lemma DaemonStaysInStep(triggers: seq<Secret>, s: Secret, w0: World, turns: seq<Turn>)
    requires ValidTriggers(triggers) && ValidSchedule(triggers, turns) && ValidSecret(s) && Independent(triggers, s)
    requires HasBackingService(s.kind) && InForce(s, w0)
    requires var runs := History(triggers, w0, Only(triggers, turns, s.name));
             forall k :: 0 <= k < |runs| ==> GoesWell([s], w0, runs, k)
    ensures InForce(s, After(triggers, w0, turns).world)
  {
    hide After, AfterEach, GoesWell, History, Only, InForce, AgreeOn, Separate, ValidKey;
    var runs := History(triggers, w0, Only(triggers, turns, s.name));
    InterleavingIsSerial(triggers, s, w0, turns);
    EachStaysInStep([s], w0, runs);
    assert s in [s];
    InForceIsLocal(s, After(triggers, w0, turns).world, AfterEach(w0, runs));
  }

  lemma InForceIsLocal(s: Secret, w1: World, w2: World)
    requires |s.envFiles| > 0 && AgreeOn(FilesOf(s), AccountsOf(s), w1, w2) && InForce(s, w2)
    ensures InForce(s, w1)
  {
    hide Lookup;
    assert Primary(s) in FilesOf(s) && Owner(s) in AccountsOf(s);
  }

  /** A daemon of secrets that may share files, as long as their rotations do
      not overlap and each ends well, keeps all of them in step. */
  lemma SharedFilesStayInStep(triggers: seq<Secret>, w0: World, turns: seq<Turn>)
    requires ValidTriggers(triggers) && ValidSchedule(triggers, turns) && NeverOverlap(triggers, w0, turns)
    requires AllSeparate(triggers) && AllInForce(triggers, w0)
    requires var runs := History(triggers, w0, turns);
             forall k :: 0 <= k < |runs| ==> GoesWell(triggers, w0, runs, k)
    ensures AllInForce(triggers, After(triggers, w0, turns).world)
  {
    hide After, AfterEach, GoesWell, History, NeverOverlap, AllSeparate, AllInForce, LastState;
    ScheduleIsSerial(triggers, w0, turns);
    EachStaysInStep(triggers, w0, History(triggers, w0, turns));
  }
}
