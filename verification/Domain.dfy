/** Secrets, the system they live in, and what each port call does to it.

    Everything outside the program is one value: the `.env` files, the
    credentials the services hold, what each container has loaded and the
    audit log.  A port call takes a `Fate`, which says what the outside did
    with it; a fault schedule is any sequence of fates. */
module Domain {
  import opened Text
  import opened EnvFiles
  import opened Compose

  datatype Kind = MySQL | Postgres | Redis | Generic | Command

  predicate HasBackingService(kind: Kind)
  {
    kind != Generic
  }

  /** `address` is host and port; for a command it stands for whatever the
      configured programs act on. */
  datatype Target = Target(address: string, adminUser: string, adminPassword: string,
                           adminPasswordEnv: string, targetUser: string)

  function EffectiveTargetUser(t: Target): string
  {
    if t.targetUser != "" then t.targetUser else t.adminUser
  }

  datatype Secret = Secret(name: string, kind: Kind, envKey: string, envFiles: seq<string>,
                           containers: seq<string>, target: Target)

  /** What `NewSecret` guarantees of every secret. */
  ghost predicate ValidSecret(s: Secret)
  {
    |s.envFiles| > 0 && Distinct(s.envFiles) && ValidKey(s.envKey)
  }

  /** The secret of one account: what the server accepts, and what it would
      accept after a restart.  An SQL server keeps the two equal. */
  datatype Cell = Cell(memory: string, disk: string)

  datatype Account = Account(address: string, user: string)

  type Files = map<string, string>
  type Cells = map<Account, Cell>
  type Loads = map<string, Files>

  datatype Record = Record(name: string, success: bool, lastStep: StepName, previous: string)

  datatype World = World(files: Files, cells: Cells, loaded: Loads, log: seq<Record>)

  datatype StepName = Pending | Read | Generated | Applied | Verified | FilesUpdated | Restarted | Done

  function Rank(step: StepName): nat
  {
    match step
    case Pending => 0 case Read => 1 case Generated => 2 case Applied => 3
    case Verified => 4 case FilesUpdated => 5 case Restarted => 6 case Done => 7
  }

  /** The outside's answers to one port call.  `ok` answers a call that is one
      question.  Changing a credential takes several commands, each with its own
      answer: `connects` and `reconnects` for the connections tried in turn,
      `sets` for the statement that changes the password, `persists` for writing
      it to disk, `reverts` for taking it back; `untouched` says that a failing
      program left the account alone.  `reached` is how far a failing restart
      got; `names` and `text` are what the call returns. */
  datatype Fate = Fate(ok: bool, connects: bool, reconnects: bool, sets: bool, persists: bool, reverts: bool,
                       untouched: bool, reached: nat, names: seq<string>, text: string)

  /** Nothing failed from outside. */
  predicate FaultFree(f: Fate)
  {
    f.ok && f.connects && f.reconnects && f.sets && f.persists && f.reverts
  }

  ghost predicate AllFaultFree(fates: seq<Fate>)
  {
    forall k :: 0 <= k < |fates| ==> FaultFree(fates[k])
  }

  ghost predicate AllOk(fates: seq<Fate>)
  {
    forall k :: 0 <= k < |fates| ==> fates[k].ok
  }

  /** An answer without fault that returns this text. */
  function Fine(text: string): (f: Fate)
    ensures FaultFree(f) && f.text == text && f.names == []
  {
    Fate(true, true, true, true, true, true, true, 0, [], text)
  }

  lemma FineIsOk(text: string)
    ensures Fine(text).ok
  {}

  // ---------------------------------------------------------------- accounts

  /** The Redis account whose password `requirepass` is. */
  const DEFAULT_USER := "default"

  /** The account that changes.  For Redis it is the default user's, whatever
      user is configured; SQL accounts are named. */
  function TargetAccount(kind: Kind, t: Target): Account
  {
    Account(t.address, if kind == Redis then DEFAULT_USER else EffectiveTargetUser(t))
  }

  /** The account that is connected as. */
  function AdminAccount(kind: Kind, t: Target): Account
  {
    Account(t.address, if kind == Redis && t.adminUser == "" then DEFAULT_USER else t.adminUser)
  }

  predicate Accepts(cells: Cells, a: Account, password: string)
  {
    a in cells && cells[a].memory == password
  }

  // ---------------------------------------------------------------- credential ports

  /** ALTER USER or ALTER ROLE over a connection as the admin account. */
  function SqlApply(kind: Kind, t: Target, cells: Cells, next: string, f: Fate): (bool, Cells)
  {
    var a := TargetAccount(kind, t);
    if f.connects && Accepts(cells, AdminAccount(kind, t), t.adminPassword) && f.sets && a in cells
    then (true, cells[a := Cell(next, next)])
    else (false, cells)
  }

  /** The admin credential is tried first; when admin is the target it may be
      stale, and the current one is tried next. */
  function SqlRestore(kind: Kind, t: Target, cells: Cells, previous: string, current: string, f: Fate): (bool, Cells)
  {
    var a, admin := TargetAccount(kind, t), AdminAccount(kind, t);
    var connected :=
      || (f.connects && Accepts(cells, admin, t.adminPassword))
      || (t.adminUser == EffectiveTargetUser(t) && f.reconnects && Accepts(cells, admin, current));
    if connected && f.sets && a in cells
    then (true, cells[a := Cell(previous, previous)])
    else (false, cells)
  }

  /** CONFIG SET requirepass, then CONFIG REWRITE.  If the rewrite fails, a
      connection with the new password sets `requirepass` to the admin password. */
  function RedisApply(t: Target, cells: Cells, next: string, f: Fate): (bool, Cells)
  {
    var a, admin := TargetAccount(Redis, t), AdminAccount(Redis, t);
    if !f.sets || !Accepts(cells, admin, t.adminPassword) || a !in cells then (false, cells)
    else
      var changed := cells[a := Cell(next, cells[a].disk)];
      if f.persists then (true, cells[a := Cell(next, next)])
      else if f.reverts && Accepts(changed, admin, next) then (false, cells[a := Cell(t.adminPassword, cells[a].disk)])
      else (false, changed)
  }

  /** Connects with whichever credential is accepted, sets, then rewrites. */
  function RedisRestore(t: Target, cells: Cells, previous: string, current: string, f: Fate): (bool, Cells)
  {
    var a, admin := TargetAccount(Redis, t), AdminAccount(Redis, t);
    var connected := (f.connects && Accepts(cells, admin, previous))
      || (f.reconnects && Accepts(cells, admin, current));
    if !connected || !f.sets || a !in cells then (false, cells)
    else if !f.persists then (false, cells[a := Cell(previous, cells[a].disk)])
    else (true, cells[a := Cell(previous, previous)])
  }

  /** A configured program: exit status 0 means it did what it was asked;
      otherwise it may have left the account unchanged or holding anything. */
  function CommandRun(t: Target, cells: Cells, value: string, f: Fate): (bool, Cells)
  {
    var a := TargetAccount(Command, t);
    if f.ok then (true, cells[a := Cell(value, value)])
    else if f.untouched then (false, cells)
    else (false, cells[a := Cell(f.text, f.text)])
  }

  function Apply(kind: Kind, t: Target, cells: Cells, next: string, f: Fate): (bool, Cells)
  {
    match kind
    case Redis => RedisApply(t, cells, next, f)
    case Command => CommandRun(t, cells, next, f)
    case Generic => (true, cells)
    case _ => SqlApply(kind, t, cells, next, f)
  }

  /** Connects with the value: as the target account, or for Redis as the
      configured user. */
  function Verify(kind: Kind, t: Target, cells: Cells, value: string, f: Fate): bool
  {
    f.ok && (kind == Command || kind == Generic || Accepts(cells, VerifiedAccount(kind, t), value))
  }

  function VerifiedAccount(kind: Kind, t: Target): Account
  {
    if kind == Redis then AdminAccount(kind, t) else TargetAccount(kind, t)
  }

  function Restore(kind: Kind, t: Target, cells: Cells, previous: string, current: string, f: Fate): (bool, Cells)
  {
    match kind
    case Redis => RedisRestore(t, cells, previous, current, f)
    case Command => CommandRun(t, cells, previous, f)
    case Generic => (true, cells)
    case _ => SqlRestore(kind, t, cells, previous, current, f)
  }

  ghost predicate SameElsewhere(cells: Cells, cells': Cells, a: Account)
  {
    forall b :: b != a ==> (b in cells <==> b in cells') && (b in cells ==> cells[b] == cells'[b])
  }

  /** A successful Apply sets both copies of the target account and nothing
      else; a failing one touches no other account. */
  lemma ApplyEffect(kind: Kind, t: Target, cells: Cells, next: string, f: Fate)
    requires HasBackingService(kind)
    ensures Apply(kind, t, cells, next, f).0 ==>
              Apply(kind, t, cells, next, f).1 == cells[TargetAccount(kind, t) := Cell(next, next)]
    ensures SameElsewhere(cells, Apply(kind, t, cells, next, f).1, TargetAccount(kind, t))
  {}

  /** When a failing Apply leaves something behind: never for SQL; for Redis
      when the rewrite fails after the set and what ends up set, by the revert
      or without it, is not what was; for a program when it left another value. */
  predicate LeavesStray(kind: Kind, t: Target, cells: Cells, next: string, f: Fate)
  {
    var a, admin := TargetAccount(kind, t), AdminAccount(kind, t);
    match kind
    case Redis =>
      && f.sets && Accepts(cells, admin, t.adminPassword) && a in cells && !f.persists
      && cells[a].memory != if f.reverts && (admin == a || Accepts(cells, admin, next)) then t.adminPassword else next
    case Command => !f.ok && !f.untouched && !(a in cells && cells[a] == Cell(f.text, f.text))
    case _ => false
  }

  lemma FailedApplyEffect(kind: Kind, t: Target, cells: Cells, next: string, f: Fate)
    requires !Apply(kind, t, cells, next, f).0
    ensures Apply(kind, t, cells, next, f).1 == cells <==> !LeavesStray(kind, t, cells, next, f)
  {
    var a := TargetAccount(kind, t);
    var cells' := Apply(kind, t, cells, next, f).1;
    if LeavesStray(kind, t, cells, next, f) {
      assert a in cells' && (a in cells ==> cells'[a] != cells[a]);
    } else {
      assert SameElsewhere(cells, cells', a);
      assert cells' == cells;
    }
  }

  lemma RestoreEffect(kind: Kind, t: Target, cells: Cells, previous: string, current: string, f: Fate)
    requires HasBackingService(kind)
    ensures Restore(kind, t, cells, previous, current, f).0 ==>
              Restore(kind, t, cells, previous, current, f).1
                == cells[TargetAccount(kind, t) := Cell(previous, previous)]
    ensures SameElsewhere(cells, Restore(kind, t, cells, previous, current, f).1, TargetAccount(kind, t))
  {}

  /** What a failing Restore can leave: an SQL server as it was; on Redis the
      previous password in memory, not on disk; a program can leave anything in
      the target account. */
  ghost predicate RestoreFailedFrom(kind: Kind, cells: Cells, a: Account, previous: string, cells': Cells)
  {
    match kind
    case Redis => cells' == cells || (a in cells && cells' == cells[a := Cell(previous, cells[a].disk)])
    case Command => SameElsewhere(cells, cells', a)
    case _ => cells' == cells
  }

  lemma FailedRestoreEffect(kind: Kind, t: Target, cells: Cells, previous: string, current: string, f: Fate)
    requires !Restore(kind, t, cells, previous, current, f).0
    ensures RestoreFailedFrom(kind, cells, TargetAccount(kind, t), previous,
                              Restore(kind, t, cells, previous, current, f).1)
  {}

  // ---------------------------------------------------------------- file and container ports

  /** Reads, edits and atomically replaces one file; returns the bytes it held. */
  function WriteFile(files: Files, path: string, key: string, value: string, f: Fate): (Option<string>, Files)
  {
    if f.ok && path in files && Lookup(files[path], key).Some?
    then (Some(files[path]), files[path := Edit(files[path], key, value)])
    else (None, files)
  }

  function RestoreFile(files: Files, path: string, snapshot: string, f: Fate): (bool, Files)
  {
    if f.ok && path in files then (true, files[path := snapshot]) else (false, files)
  }

  /** The first n containers load the files as they are. */
  function LoadFirst(loaded: Loads, files: Files, names: seq<string>, n: nat): Loads
    requires n <= |names|
  {
    if n == 0 then loaded else LoadFirst(loaded, files, names, n - 1)[names[n-1] := files]
  }

  /** Restarts in order; a failure has restarted some prefix of the list. */
  function Restart(loaded: Loads, files: Files, names: seq<string>, f: Fate): (bool, Loads)
  {
    if f.ok then (true, LoadFirst(loaded, files, names, |names|))
    else (false, LoadFirst(loaded, files, names, if f.reached < |names| then f.reached else |names|))
  }

  lemma {:induction false} LoadFirstEffect(loaded: Loads, files: Files, names: seq<string>, n: nat)
    requires n <= |names|
    ensures forall c :: c in names[..n] ==>
              c in LoadFirst(loaded, files, names, n) && LoadFirst(loaded, files, names, n)[c] == files
    ensures forall c :: c !in names[..n] ==>
              && (c in loaded <==> c in LoadFirst(loaded, files, names, n))
              && (c in loaded ==> LoadFirst(loaded, files, names, n)[c] == loaded[c])
  {
    if n > 0 {
      LoadFirstEffect(loaded, files, names, n - 1);
      TakeSnoc(names, n - 1);
    }
  }

  /** A restart that works has every container load the files as they are; one
      that fails has the containers it got to do so; nothing else is touched. */
  lemma RestartEffect(loaded: Loads, files: Files, names: seq<string>, f: Fate)
    ensures Restart(loaded, files, names, f).0 == f.ok
    ensures var loaded' := Restart(loaded, files, names, f).1;
            var done := if f.ok || f.reached >= |names| then names else names[..f.reached];
            && (forall c :: c in done ==> c in loaded' && loaded'[c] == files)
            && (forall c :: c !in done ==> (c in loaded <==> c in loaded') && (c in loaded ==> loaded'[c] == loaded[c]))
  {
    var n := if f.ok || f.reached >= |names| then |names| else f.reached;
    LoadFirstEffect(loaded, files, names, n);
    assert names[..|names|] == names;
    hide LoadFirst;
  }

  // ---------------------------------------------------------------- the admin password

  /** `NewEnvKey`: the trimmed key, when its shape is valid. */
  function NewEnvKey(raw: string): Option<string>
  {
    if ValidKey(TrimSpace(raw)) then Some(TrimSpace(raw)) else None
  }

  /** The target with the credential used to connect: an explicit password,
      then the entry of the document that is named, then the secret's own
      value when the account rotates itself. */
  function ResolveAdminPassword(t: Target, doc: string, current: string): Target
  {
    if t.adminPassword != "" then t
    else if t.adminPasswordEnv != "" then
      match NewEnvKey(t.adminPasswordEnv)
      case None => t
      case Some(key) =>
        var raw := Lookup(doc, key);
        if raw.Some? && raw.value != "" then t.(adminPassword := raw.value) else t
    else if t.targetUser == "" || t.targetUser == t.adminUser then t.(adminPassword := current)
    else t
  }
}
