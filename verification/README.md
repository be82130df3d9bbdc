# Secret Rotator: a verified model

Secret Rotator replaces a live credential on a backing service, rewrites the
`.env` files that carry it, restarts the containers that load them in
dependency order, and undoes all of it when a step fails. A daemon does so on
schedules and when a credential has outlived its policy; every attempt goes
into an encrypted log.

This project models that behaviour in Dafny and proves what the program is for:
a rotation is all or nothing, chains of rotations stay in step, the restart
order is the one dependency order there is, an edited file reads back, and the
log, its cache and the policy loop keep their promises.

`dafny verify dfyconfig.toml` checks everything.

## How it fits together

| file | what it holds |
|---|---|
| Text.dfy | trimming, splitting into lines and joining, byte order, decimal numbers |
| WhiteSpace.dfy | what trimming removes, said by code point |
| EnvFile.dfy | the `.env` parser, editor and printer, as functions and as the object |
| EnvReading.dfy | what each shape of line means, CRLF files, the keys in file order |
| Compose.dfy | the topological sort and what it computes |
| RestartOrder.dfy | filtering, reordering, replica expansion and the restart loop, end to end |
| Domain.dfy | secrets, the world outside, and what each port call does to it |
| Rotation.dfy | the journal of one attempt and the undo plan derived from it |
| Saga.dfy | one rotation as a machine, and the invariants of every reachable state |
| Guarantees.dfy | what a finished rotation promises |
| Outcome.dfy | how a rotation ends, read off the answers its calls get |
| RotateSecret.dfy | the code of a rotation, refining the machine |
| Chain.dfy | rotations one after the other |
| Aliases.dfy | two configured paths that lead to one file |
| DryRun.dfy | the plan that is printed instead of carried out |
| Services.dfy, SqlText.dfy | the two copies of a Redis password, the SQL restore, the MySQL statement |
| Footprint.dfy, Scheduling.dfy | what a rotation can see and touch; the daemon with its per-secret locks |
| SharedFiles.dfy | overlapping rotations of secrets in one file |
| AuditLog.dfy, HistoryCache.dfy | the encrypted log and the cache over it |
| MaxAge.dfy, Compliance.dfy | policies as text, standings, and the bound on credential age |

The world is the files' bytes by path, the accounts' passwords (a copy in
memory and one on disk), what each container has loaded, and the audit log. A
port call takes a `Fate` that says what the outside did with it, so a fault
schedule is any sequence of fates and nothing is assumed about which calls
fail; a call that has several commands names the answer to each. `Saga.Run` is
the state after a schedule. `RotateSecret.Execute` is the imperative code with
its journal object and its ports; its contract says that the calls it makes are
the steps of one finished run. Everything proved of runs therefore holds of it.

The topological sort takes its nodes and visits its maps in any order. That it
returns the one least order means that the order of Go's map iteration never
shows.

## What is taken for granted

- Files: a failing write or restore leaves the file as it was, because files
  are replaced by renaming. Different paths are different files, except in
  Aliases.dfy, which shows what happens otherwise.
- Containers: a failing restart has restarted some first part of the list.
- Services: one failing SQL or Redis command changes nothing; a call of several
  commands can fail between any two of them. A configured program that exits
  with an error may have left the account holding anything; one that exits with
  0 did what it was asked.
- Encryption is ideal: what was sealed under a key opens under that key and no
  other, and a key is a function of passphrase and salt.
- Generated values are over the base64url alphabet (section 5 of RFC 4648).
- Appending to the log is one step in HistoryCache.dfy.
- Rotations of different secrets that overlap are independent of each other where
  they share no file and no account (`Scheduling.Independent`); SharedFiles.dfy
  shows what happens otherwise.
- Writing one file (reading, editing and replacing it) is one step.
- Durations written in the library's own syntax (`36h`) come in as a parameter.

## Where code and documentation differ

- An edited line is written back as key, `=` and the quoted value. White space
  at its ends or before the `=`, a carriage return included, and an `export `
  prefix are lost, although formatting is documented as preserved; every other
  line keeps its bytes. `EnvFiles.EditKeepsFormattingExactlyWhenPlain` says
  exactly when all of them do.
- `password_env` is documented as falling back to the process environment. The
  code consults only the primary file; without an entry there it connects with
  the empty password, and the rotation succeeds exactly when that is accepted
  (`Chain.MissingEntrySucceedsExactlyWhen`, `Chain.MissingEntryHappens`).
- When Redis accepts `CONFIG SET` but both `CONFIG REWRITE` and the revert fail,
  the rotation is reported as rolled back while the server keeps the new
  password (`Services.DoubleFaultHappens`). `Guarantees.ServiceRestoredExactlyWhen`
  says exactly when a clean rollback leaves the service as it was.
- A policy whose length does not fit 64 bits wraps around instead of being
  rejected: `30501w`, some 585 years, is accepted as about three days
  (`MaxAges.OverlongPolicyIsAccepted`).
- Repeat rotations are documented as working. For an account that changes its
  own password they do if and only if the next connection will use the new value
  (`Chain.RepeatSucceedsExactlyWhen`). With an explicit password in the
  configuration (`Chain.ExplicitPasswordHappens`), or one taken from an entry
  that is not the rotated one, only the first rotation succeeds.
- A Redis secret with a `username` other than the default user cannot be rotated:
  `requirepass` is the default user's password, but the new value is verified,
  and the old one restored, as the configured user
  (`Services.NamedRedisUserHappens`).
- Replicas are documented as sorted by number, with the name where a number is
  missing. Where only some have one the comparator can go in a circle
  (`RestartOrder.CircularHappens`); names being different, exactly then there is
  no order (`RestartOrder.SortByReplica`).
- The lock is one per secret, and secrets may live in one file, as they do in the
  example configuration. Rotations of such secrets that do not overlap keep each
  other in step (`Scheduling.SharedFilesStayInStep`). When they overlap, a
  rollback of one restores the whole file and takes the other's new value with
  it (`SharedFiles.RestoreUndoesTheOther`, `SharedFiles.OverlapHappens`).
- The configuration rejects paths that are spelled alike, not paths that lead to
  the same file. With two such paths a rollback reports success and leaves the
  new value in that file (`Aliases.RollbackKeepsSharedFiles`,
  `Aliases.SharedFileHappens`).
- A first log write that fails, with several store instances alive, can make
  another instance's entries unreadable (`AuditLog.FailedFirstWriteLosesEntries`);
  `AuditLog.ListsExactlyWhenInStep` says exactly when all of them stay readable.

## Model

| member | source | states |
|---|---|---|
| Guarantees.AllOrNothing | internal/application/rotate.go:68-155 | for every fault schedule and any number of files, starting with service, files and containers in step: success means every file, the service and every container carry the new value and nothing else changed; a refusal changed nothing; a clean rollback put files and containers back, and the service if and only if a failing apply left nothing behind; a failed rollback names the undo actions that failed and leaves each file, the service and the containers as its own action did |
| Guarantees.SuccessIsComplete | internal/application/rotate.go:101-155 | a nil result: each env file is its old bytes edited and reads back the new value, both copies of the account hold it, every container loaded the new files, other files, accounts and containers are untouched, and at most the one success record was added |
| Guarantees.CleanRollback | internal/application/rotate.go:207-244 | a rotation that failed without a rollback failure: all files hold their old bytes, every restarted container loaded them again, and an applied credential was replaced by the value the primary file holds |
| Guarantees.RefusalChangesNothing | internal/application/rotate.go:69-93 | an error before the pipeline starts leaves files, services, containers and log as they were |
| Guarantees.EachFileIsRestoredOnItsOwn | internal/application/rotate.go:214-231 | the undo does not stop at a failure: each written file holds its old bytes exactly when its own restore worked, whatever else failed |
| Guarantees.FailedRollbackIsPartlyUndone | internal/application/rotate.go:214-244 | after a failed rollback: each file as its own restore left it; the service restored unless its action failed, and then as that failing restore left it; each restarted container with the files as they are or, if restarting it again failed, with what it had before, the edited files or the files as they are |
| Guarantees.RunKeepsLoadsInv | internal/application/rotate.go:137-148 | in every reachable state, a restarted container has loaded what it had before, the edited files, or the files as they are once the undo has come to it |
| Guarantees.ServiceRestoredExactlyWhen | internal/application/rotate.go:110-117 | a clean rollback leaves the service as it was if and only if, after an apply that worked, the primary file had held the credential in force, or else that failing apply left nothing behind |
| Guarantees.ContainersRestoredExactlyWhen | internal/application/rotate.go:137-148 | a clean rollback leaves the containers as they were if and only if each one that was restarted had loaded the files as they were |
| Guarantees.RunFinishes | internal/application/rotate.go:68-155 | whatever fails, a rotation ends within 2n + 12 port calls for n files |
| Guarantees.FaultFreeUndoFailsExactlyWhen | internal/application/rotate.go:207-244 | however a rotation got into trouble, an undo that itself meets no fault ends as a clean rollback if and only if no credential was applied or the restore has a password to connect with; if it has none, the credential is all that fails |
| Guarantees.RestoreConnectsExactlyWhen | internal/domain/ports.go:23-34 | after an apply over an accepted connection, a restore without faults works if and only if it has a password to connect with: always, but for a Redis user other than the default one whose password is neither the old nor the new value |
| Guarantees.RunKeepsConnection | internal/application/rotate.go:110-117 | in every reachable state, an applied credential was applied over a connection that the service accepted, and on Redis the user connected as can log in with it once it has been verified |
| Guarantees.RunKeepsApplyTrace | internal/application/rotate.go:110-114 | after a failed apply nothing more touches the service: in every later state it is what that one call left |
| Guarantees.RunKeepsNextTrace | internal/application/rotate.go:103-108 | the value that is applied, written and recorded is the one the generator answered |
| Outcomes.SuccessExactlyWhen | internal/application/rotate.go:68-155 | under any fault schedule a rotation succeeds if and only if each of its calls is answered: the registry, the fleet, the primary file with the key in it, the generator, for kinds with a service every command of the apply and the login with the new value, each file with the key in it, and the restart if there are containers; the next call then records the success, unless it fails too |
| Outcomes.FirstBadCallDecides | internal/application/rotate.go:68-244 | the first call that is not answered decides: a refusal before the generator, later the cause and the step on record that go with the call; then follow one undo action per file written by then, a restart if the restart had failed and the credential if it had been applied, exactly those fail that are not answered in turn, and the call after them records the failure with the step reached and the value read, unless it fails too |
| Outcomes.SuccessWasVerified | internal/application/rotate.go:119-126 | no rotation of a kind with a service succeeds unless the verification was answered |
| Outcomes.FailedVerificationIsUndone | internal/application/rotate.go:119-123 | a failed verification turns to the undo with its own cause and the journal as it was |
| Outcomes.SuccessByAccount | internal/application/rotate.go:183-204 | in terms of the configuration: after a success the configured user had been let in with the password the configuration names (explicit, else the entry of the primary file, else the current value of an account that changes its own, else none), and the configured target user, or on Redis the default user, alone has the generated value |
| Saga.RunKeepsInv | internal/application/rotate.go:68-155 | in every reachable state the journal exactly inverts what was done: backups are the bytes before the run, written files are a prefix of the configured ones and hold the edit until restored, other files are untouched, the step is at least applied exactly when the service was changed, containers change only by a journalled restart |
| Saga.StepKeepsInv | internal/application/rotate.go:101-148 | each port call, whether it succeeds or fails, keeps that invariant |
| Saga.UndoStepKeepsInv | internal/application/rotate.go:216-231 | each undo action keeps it, with the restore order files, containers, service |
| Rotations.PlanAt | internal/domain/rotation.go:198-230 | the undo plan position by position: every written file in write order with its first snapshot, at most one restart, at most one credential restore, last |
| Rotations.FirstSnapshotIsKept | internal/domain/rotation.go:140-146 | whatever is written after it, the journal keeps the bytes a file held before its first write |
| Rotations.PrimaryKeepsWhatWasRead | internal/domain/rotation.go:119-123 | for the primary file these are the bytes from which the current value was read, whatever it held when it was written |
| Rotations.Rotation.Begin | internal/domain/rotation.go:93-100 | a new journal is empty |
| Rotations.Rotation.RecordCurrentValue | internal/domain/rotation.go:119-123 | keeps the value read and the primary file's snapshot, and changes nothing else |
| Rotations.Rotation.RecordGenerated | internal/domain/rotation.go:126-129 | keeps the new value; the step never goes back |
| Rotations.Rotation.RecordFileWritten | internal/domain/rotation.go:140-146 | the first snapshot of a path is kept, later ones are ignored; the path joins the written list |
| Rotations.Rotation.RecordRestarted | internal/domain/rotation.go:149-152 | keeps the whole container list, whether or not the restart worked |
| Rotations.Rotation.AdvanceTo | internal/domain/rotation.go:158-162 | the pipeline moves forward, never backwards |
| Rotations.Rotation.CompensationPlan | internal/domain/rotation.go:198-230 | the loop computes the plan of the journal |
| RotateSecret.Execute | internal/application/rotate.go:68-155 | the code refines the machine: the calls it makes, in order and each once, are the steps of a run that ended with the outcome and cause it returns, in the world it leaves |
| RotateSecret.Compensated | internal/application/rotate.go:207-244 | every action of the plan is attempted, whatever failed before, and the outcome says whether any did |
| RotateSecret.Inspect | internal/application/rotate.go:69-93 | the read-only checks come before anything changes, and each of their errors ends the run as a refusal |
| RotateSecret.ChangeService | internal/application/rotate.go:110-126 | a failed apply or verify has been compensated when this returns |
| RotateSecret.WriteOne | internal/application/rotate.go:128-135 | one file is written and its old bytes journalled, or the rotation has been compensated |
| RotateSecret.RestartAll | internal/application/rotate.go:137-148 | the restart is journalled whether or not it worked, before any compensation |
| RotateSecret.Host.Write | internal/infrastructure/envstore/store.go:34-53 | parsing, checking, editing and printing with the file object is the edit of the file's bytes; a missing file, a missing key or a failing write changes nothing |
| RotateSecret.Host.RestartContainers | internal/infrastructure/container/manager.go:42-52 | a failing restart has restarted a prefix, and each restarted container has loaded the files as they are |
| RotateSecret.Host.ApplyCredential | internal/infrastructure/credential/redis.go:26-49 | the command sequences of each kind, with the Redis revert when the rewrite fails |
| RotateSecret.Host.RestoreCredential | internal/infrastructure/credential/redis.go:64-83 | the command sequences of each kind, trying the second credential when the first is refused |
| Domain.FailedApplyEffect | internal/infrastructure/credential/redis.go:26-49 | a failing apply leaves the service unchanged if and only if it left no stray value; for Redis that is when the rewrite failed after the set and what ended up set is not what was |
| Domain.RestoreEffect | internal/infrastructure/credential/mysql.go:47-58 | a successful restore sets both copies of the target account to the previous value and touches no other account |
| Domain.FailedRestoreEffect | internal/infrastructure/credential/redis.go:64-83 | what a failing restore can leave: an SQL server as it was; on Redis at most the previous password in memory and not on disk |
| Domain.RestartEffect | internal/infrastructure/container/manager.go:42-52 | a failing restart has the containers it got to, in list order, load the files as they are, and touches no other |
| Chain.ChainStaysInStep | internal/application/rotate.go:101-117 | over any chain of rotations that each end in success, refusal or clean rollback, the primary file's value is the credential the service accepts, on both copies, and files that agreed still agree |
| Chain.EndingWellStaysInStep | internal/application/rotate.go:68-155 | one rotation that ends well keeps service and files in step |
| Chain.OthersStayInStep | internal/application/rotate.go:68-155 | in every reachable state of a rotation with a generated value, however it ends, every other secret that has neither key nor account in common with it is as much in step as it was, also one in the same file |
| Chain.EachStaysInStep | internal/application/rotate.go:68-155 | over any rotations of such secrets one after the other, each ending well, all of them stay in step, whatever files they share |
| Chain.ApplyGetsTheCredentialInForce | internal/application/rotate.go:183-204 | for a self-rotating account, every apply is given the credential the service accepts at that moment |
| Chain.EveryApplyOfAChain | internal/application/rotate.go:101-117 | the same for every apply of every rotation of a chain, and for the rotation after it |
| Chain.RepeatSucceedsExactlyWhen | internal/application/rotate.go:183-204 | after a successful rotation of an account that changes its own password, a further one without faults succeeds if and only if the password it will connect with, told from the configuration and the primary file before the first rotation, is the new value; if it is not, none succeeds under any schedule |
| Chain.NextPasswordIsResolved | internal/application/rotate.go:183-204 | that password is what the next rotation resolves from the edited file: the explicit one, the new value, or another entry that the edit left alone |
| Chain.SelfRotatingRepeats | internal/application/rotate.go:101-105 | a self-rotating account can always be rotated again |
| Chain.ExplicitPasswordWorksOnce | internal/application/rotate.go:187-189 | with an explicit password, no rotation after a successful one to another value can succeed |
| Chain.ExplicitPasswordHappens | internal/application/rotate.go:187-189 | a concrete secret, world and two schedules without faults: the first rotation succeeds, the second does not |
| Chain.MissingEntrySucceedsExactlyWhen | internal/application/rotate.go:191-198 | a rotation whose named password entry is missing from the primary file succeeds, without faults, if and only if the service accepts the empty password and a Redis user other than the default one has it as the new value too |
| Chain.MissingEntryHappens | internal/application/rotate.go:191-198 | a concrete secret and world for which it does not |
| Aliases.UndoRestoresExactlyWhenUnshared | internal/domain/rotation.go:140-146 | for any placement of paths in files and any edit that is its own repetition, the undo leaves the edit in exactly the files that two of the paths lead to, and so brings every file back if and only if the edit changes none of those |
| Aliases.RollbackKeepsSharedFiles | internal/application/rotate.go:207-244 | the same for the edit the program makes, through the write and restore ports: with no call failing the outcome is a clean rollback, and every file that two paths lead to keeps the new value |
| Aliases.SharedFileHappens | internal/domain/secret.go:103-120 | two spellings of one path, accepted as different, with the file before and after |
| Aliases.EditTwiceIsOnce | internal/infrastructure/envstore/writer.go:12-25 | editing a file twice with a generated value is editing it once |
| Compose.TopoSort | internal/infrastructure/container/compose.go:73-135 | a returned order is the lexicographically least dependency-first permutation of the nodes, whatever order the maps are visited in, with independent neighbours in ascending byte order; an error exactly when there is none, and on a closed graph exactly when there is a cycle |
| Compose.LeastOrderAscends | internal/infrastructure/container/compose.go:103-156 | in the least order two neighbours are in ascending byte order (at their first difference) unless the second depends on the first; without dependencies all names ascend |
| Text.LessMeans | internal/infrastructure/container/compose.go:138-156 | the order of names is that of the first differing byte, a proper prefix first |
| Compose.LeastOrderIsUnique | internal/infrastructure/container/compose.go:70-135 | at most one order is least, so map iteration never shows in the result |
| Compose.GreedyIsLeast | internal/infrastructure/container/compose.go:103-128 | taking the least ready node each time yields an order no later than any dependency-first permutation |
| Compose.StuckHoldsCycle | internal/infrastructure/container/compose.go:130-133 | when nothing more is ready, the nodes left over of a closed graph hold a cycle, which the lemma constructs |
| Compose.CycleMeansNoOrder | internal/infrastructure/container/compose.go:130-133 | a graph with a cycle has no dependency-first permutation |
| Compose.ReverseAdjacency | internal/infrastructure/container/compose.go:95-101 | visiting the keys in any order, the reverse map holds each dependent as often as it names the dependency |
| Compose.CountDependencies | internal/infrastructure/container/compose.go:89-93 | each in-degree counts the node's dependencies |
| Compose.ReleaseDependents | internal/infrastructure/container/compose.go:115-128 | after a pop, the in-degrees count the unplaced dependencies and the queue again holds exactly the ready nodes, ascending |
| Compose.SortStrings | internal/infrastructure/container/compose.go:138-144 | sorts in place: a permutation, in order |
| Compose.InsertSorted | internal/infrastructure/container/compose.go:147-156 | keeps the queue ascending and adds exactly the new name |
| RestartOrder.RestartFollowsDependencies | internal/infrastructure/container/resolve.go:57-89 | end to end: when A depends on B through any chain, requested or not, whenever the loop gets to restarting an entry of A every container of B has been restarted and was healthy, also when the loop stops early |
| RestartOrder.FirstRestartFollows | internal/infrastructure/container/manager.go:42-52 | so a container that neither B nor a service before it brings in is restarted only after every container of B was restarted and healthy |
| RestartOrder.RestartsFollowExactlyWhenNew | internal/infrastructure/container/manager.go:42-52 | in a trace without failure all restarts of a container come after B and everything before it if and only if none of those services brings it in |
| RestartOrder.DependencyComesFirst | internal/interfaces/cli/rotate.go:111-163 | after reordering, a requested service comes after every requested service it depends on through any chain |
| RestartOrder.ReorderingKeepsNames | internal/interfaces/cli/rotate.go:111-163 | reordering drops and invents no name |
| RestartOrder.ReorderingCounts | internal/interfaces/cli/rotate.go:135-163 | how often each name occurs after reordering: once if the file knows it, as often as requested if not |
| RestartOrder.UnknownNamesComeLast | internal/interfaces/cli/rotate.go:135-163 | names the Compose file does not know follow all others, as they were written, repetitions included |
| RestartOrder.UnorderedStaysAsWritten | internal/interfaces/cli/rotate.go:111-134 | fewer than two names, or a file that is absent or unusable, leave the list as written; only a file that cannot be located is an error, and only then |
| RestartOrder.FilterDependencyOrder | internal/infrastructure/container/compose.go:55-68 | the loop keeps exactly the requested names, in dependency order |
| RestartOrder.ApplyDependencyOrder | internal/interfaces/cli/rotate.go:111-163 | the code computes the reordering, with its error and its pass-through cases |
| RestartOrder.ResolveContainerNames | internal/infrastructure/container/resolve.go:35-90 | each requested name becomes a block: the container of that name, or every replica of the service; an error exactly when some name matches nothing or several projects; raw names without an inventory |
| RestartOrder.ResolveOne | internal/infrastructure/container/resolve.go:57-89 | one name resolves exactly when it names a container or a service of a single project |
| RestartOrder.OneProjectMeans | internal/infrastructure/container/resolve.go:92-108 | a service is of one project exactly when all its containers carry the same label, a missing label being a project of its own |
| RestartOrder.SortByReplica | internal/infrastructure/container/resolve.go:112-124 | sorts replicas in place: a permutation; in order, lowest number first, when all or none have a number, and in general if and only if the comparator does not go in a circle |
| RestartOrder.ReplicasGoByNumber | internal/infrastructure/container/resolve.go:112-124 | replicas with different numbers go by the value of the number, 2 before 10 |
| RestartOrder.OthersGoByName | internal/infrastructure/container/resolve.go:112-124 | with the same number, or where one has none, they go by name in byte order |
| RestartOrder.CircularHasNoOrder | internal/infrastructure/container/resolve.go:112-124 | where it does, no arrangement of the replicas is in order |
| RestartOrder.CircularHappens | internal/infrastructure/container/resolve.go:112-124 | three replicas, one without a number, for which it does |
| RestartOrder.NotReplicaLessTransitive | internal/infrastructure/container/resolve.go:112-124 | among replicas that all have a number, or none, the comparator is an ordering |
| RestartOrder.RestartInOrder | internal/infrastructure/container/manager.go:42-52 | the trace is a prefix of restart and health events in order, the whole of it exactly on success, and a failure stops at the first step that failed |
| EnvFiles.EditRoundTrip | internal/infrastructure/envstore/writer.go:12-42 | for any bytes, any valid key present and any representable value, the edited file parses to the same lines, byte for byte, but for the edited one, which carries the value with its key and quote style; all keys in order and all other lookups are unchanged |
| EnvFiles.EditReadsBackIffRepresentable | internal/infrastructure/envstore/reader.go:35-67 | the value comes back if and only if it is representable in the quote style of its line |
| EnvFiles.GeneratedValueReadsBack | internal/infrastructure/credential/generator.go:24-34 | a generated value always comes back, whatever the quote style, and no other key is affected |
| EnvFiles.EditKeepsFormattingExactlyWhenPlain | internal/infrastructure/envstore/writer.go:10-25 | writing back the value a file holds leaves every byte if and only if the last line of the key has no white space at its ends or before the `=` and no `export` |
| EnvFiles.FormattingKeptExactlyWhenPlain | internal/infrastructure/envstore/writer.go:17-24 | the same for one line; on such a line a new value changes only the text between the quotes |
| EnvFiles.EditDropsExport | internal/infrastructure/envstore/writer.go:17-24 | any edit of an exported entry drops the `export`, with a concrete file |
| EnvFiles.EditDropsBlanks | internal/infrastructure/envstore/writer.go:17-24 | any edit of an entry with a blank before the `=` drops the blank |
| EnvFiles.EditOfAbsentKey | internal/infrastructure/envstore/writer.go:12-16 | setting a key the file does not hold leaves every byte |
| EnvFiles.NoLineFeedReadBack | internal/infrastructure/envstore/reader.go:20-30 | no value read from a file holds a line feed |
| WhiteSpace.TrimSpaceExactlyWhen | internal/infrastructure/envstore/reader.go:36 | the trimmed text is the one that results from taking off white-space characters at both ends, those with the Unicode property in UTF-8, until neither end has one |
| EnvReading.AssignmentIsRead | internal/infrastructure/envstore/reader.go:35-67 | an assignment is read as its key and what follows the first `=`, without the white space around key and value and without one pair of quotes around the value |
| EnvReading.ExportIsRead | internal/infrastructure/envstore/reader.go:45-50 | the same after `export` and any more white space |
| EnvReading.OtherLinesHoldNoKey | internal/infrastructure/envstore/reader.go:36-55 | comments and lines without `=` hold no key |
| EnvReading.SpaceAroundALine | internal/infrastructure/envstore/reader.go:36 | white space at either end of a line makes no difference to what it says |
| EnvReading.CrlfFileReadsTheSame | internal/infrastructure/envstore/reader.go:20-37 | a file with CRLF line ends holds the same keys with the same values as with LF |
| EnvReading.KeysInFileOrder | internal/infrastructure/envstore/types.go:40-48 | the keys are listed in file order, once for each line that holds one, and no other line holds one |
| EnvReading.ValidKeyBytes | internal/domain/values.go:32-48 | a valid key is letters, digits and underscores, and does not start with a digit |
| EnvFiles.SetLineReadsBack | internal/infrastructure/envstore/reader.go:35-67 | the line written for a key parses to that key and value if and only if the value is representable |
| EnvFiles.RenderAfterParse | internal/infrastructure/envstore/writer.go:33-42 | printing what was parsed gives the original bytes, for every file |
| EnvFiles.IndexAgreesWithScan | internal/infrastructure/envstore/types.go:21-37 | the index holds exactly the keys a scan finds, each at its last line |
| EnvFiles.SameKeySameIndex | internal/infrastructure/envstore/writer.go:12-25 | an edit needs no rebuild of the index and keeps the keys in order |
| EnvFiles.EnvFile.Parse | internal/infrastructure/envstore/reader.go:20-30 | the object holds the parsed lines and an index that agrees with them; what each line means is in the `EnvReading` rows |
| EnvFiles.EnvFile.Get | internal/infrastructure/envstore/types.go:21-26 | the index lookup is the last line a scan finds for the key |
| EnvFiles.EnvFile.Reindex | internal/infrastructure/envstore/types.go:30-37 | rebuilds the index from any state |
| EnvFiles.EnvFile.Keys | internal/infrastructure/envstore/types.go:40-48 | the keys in file order, duplicates included |
| EnvFiles.EnvFile.Set | internal/infrastructure/envstore/writer.go:12-25 | edits the last line of the key in place and leaves the index right |
| EnvFiles.EnvFile.Render | internal/infrastructure/envstore/writer.go:33-42 | the lines joined by line feeds, none added at the end |
| Text.JoinAfterSplit | internal/infrastructure/envstore/reader.go:22-23 | joining the lines of a text gives it back |
| Text.SplitAfterJoin | internal/infrastructure/envstore/writer.go:33-42 | splitting joined lines gives them back |
| DryRun.BuildAgreesWithChecks | internal/application/plan.go:46-64 | from the same world and answers the dry run succeeds exactly when the rotation gets past its read-only checks |
| DryRun.PlanNamesFilesAndContainers | internal/application/plan.go:95-104 | the plan's file actions are the env files and its restarts the resolved containers, each in order |
| DryRun.PlanHasEachStep | internal/application/plan.go:66-106 | for each kind of step the subjects it is planned for, in order: reading, generating, applying and recording once, verifying once for kinds with a service and else not, one per file, one per container or one that says there are none |
| DryRun.PlanIsInOrder | internal/application/plan.go:66-106 | the planned steps come in the order of the pipeline; with the row before, this is the whole plan |
| DryRun.FaultFreeRunFollowsThePlan | internal/application/plan.go:46-109 | a run without faults succeeds if and only if every env file holds the key, the service accepts the credential connected with and, on Redis, the user connected as can log in with the new value; it then writes exactly the planned files and restarts exactly the planned containers, in order |
| DryRun.Build | internal/application/plan.go:46-109 | the plan is built when the three read-only answers allow it, and only then |
| Services.RedisSuccessSurvivesReboot | internal/infrastructure/credential/redis.go:26-83 | after an apply or restore that reports success, from any state of the two copies, a server restart changes nothing and the password asked for is in force |
| Services.RedisRevertRestoresBothCopies | internal/infrastructure/credential/redis.go:30-47 | a failing apply as the default user whose revert works leaves memory and disk as they were |
| Services.FailedRewriteLeaves | internal/infrastructure/credential/redis.go:26-83 | when the rewrite fails after the set, the password set last is in force and the one on disk stays: after an apply the new one, or the admin password if it was taken back; after a restore the previous one |
| Services.DoubleFaultGoesUnreported | internal/infrastructure/credential/redis.go:30-47 | a rewrite and a revert that both fail end as a clean rollback with a changed service |
| Services.DoubleFaultHappens | internal/infrastructure/credential/redis.go:30-47 | a concrete secret, world and schedule for which it does |
| Services.NamedRedisUserSucceedsOnlyByChance | internal/infrastructure/credential/redis.go:51-60 | for a Redis user other than the default one a rotation succeeds only if the generated value is that user's password already |
| Services.NamedRedisUserCannotRotate | internal/infrastructure/credential/redis.go:26-83 | for such a user, under every schedule in which no call fails, the rotation ends as a failed rollback with the new password in force |
| Services.NamedRedisUserHappens | internal/infrastructure/credential/redis.go:86-92 | a concrete secret, world and schedule for which it does |
| SqlText.StatementReadsBack | internal/infrastructure/credential/mysql.go:67-77 | read by MySQL's literal rules, the statement gives back exactly the user, host and password, for all strings |
| SqlText.LiteralReadsBack | internal/infrastructure/credential/mysql.go:111-117 | an escaped value reads back whole and ends at its own closing quote |
| SqlText.PlainStatement | internal/infrastructure/credential/mysql.go:67-77 | the text of the statement for values that need no escape |
| Footprint.StepIsLocal | internal/application/rotate.go:68-155 | a step reads nothing but the secret's own files and accounts: worlds that agree on those give the same step and still agree |
| Footprint.StepStaysInside | internal/application/rotate.go:68-155 | a step changes no file and no account but the secret's own |
| Footprint.StepKeepsOwn | internal/application/rotate.go:183-204 | resolving the password changes neither the account rotated nor the one connected as |
| Scheduling.AtMostOneInFlight | internal/infrastructure/scheduling/scheduler.go:76-104 | over every interleaving of any number of triggers, at most one rotation of a secret is in flight |
| Scheduling.SkippedOnlyForAnother | internal/infrastructure/scheduling/scheduler.go:79-83 | a trigger is skipped only while another rotation of the same secret is in flight |
| Scheduling.OthersDoNotMatter | internal/infrastructure/scheduling/scheduler.go:36-104 | a secret's calls, files and credential are what they would be if its own triggers were the only ones |
| Scheduling.ScheduleIsSerial | internal/infrastructure/scheduling/scheduler.go:76-104 | a schedule in which no two rotations overlap, of whatever secrets, amounts to rotations one after the other, of which only the last can be unfinished |
| Scheduling.InterleavingIsSerial | internal/infrastructure/scheduling/scheduler.go:76-104 | over every interleaving, the files and the credential of a secret that shares neither are those of its rotations run alone, one after the other, and all but one have finished |
| Scheduling.DaemonStaysInStep | internal/infrastructure/scheduling/scheduler.go:76-104 | a daemon whose rotations of a secret end well keeps its files and service in step under any interleaving with secrets that share neither file nor account |
| Scheduling.SharedFilesStayInStep | internal/infrastructure/scheduling/scheduler.go:76-104 | a daemon of secrets that may share files keeps all of them in step as long as their rotations do not overlap and each ends well |
| SharedFiles.RestorePutsBackEveryKey | internal/application/rotate.go:216-220 | in any world, a restore that works puts back the old bytes of the file and so every key's old value, whatever was written to it in between |
| SharedFiles.RestoreKeepsOtherExactlyWhen | internal/infrastructure/envstore/store.go:56-61 | so another secret in that file stays in step if and only if its value was not changed in between |
| SharedFiles.RestoreUndoesTheOther | internal/infrastructure/envstore/store.go:56-61 | a rotation of another secret that succeeds while this one is about to restore the shared file is lost with the restore: the service has the new value and the file the old one |
| SharedFiles.OverlappingRuns | internal/infrastructure/scheduling/scheduler.go:76-104 | two triggers of different secrets, the second running while the first is halfway, under the locks as they are |
| SharedFiles.OverlapHappens | rotator.example.yml:77-101 | two concrete secrets in one file and a schedule after which one rotation is rolled back, the other reported as a success, and its value is lost from the file |
| AuditLog.ListsExactlyWhenInStep | internal/infrastructure/audit/store.go:36-110 | over any operations by any number of instances, an instance lists exactly the accepted entries in order if and only if at every accepted append the file did not exist, the appending instance had no key, or its salt was the file's, and the same holds of the listing instance; a new one needs only the former |
| AuditLog.OpsKeepLogInv | internal/infrastructure/audit/store.go:36-66 | whatever is done and fails, the file holds the accepted entries, the last one under its salt; once they are under several salts they stay so |
| AuditLog.ListReturnsWhatWasAppended | internal/infrastructure/audit/store.go:36-110 | that is so when no append failed before the file existed, or there is one instance |
| AuditLog.SaltNeverChanges | internal/infrastructure/audit/store.go:132-136 | then too the salt stays once written |
| AuditLog.AppendKeepsReadableExactlyWhen | internal/infrastructure/audit/store.go:175-199 | one more append keeps any readable log readable if and only if the instance has no key yet or derived it from the file's salt |
| AuditLog.FailedFirstWriteLosesEntries | internal/infrastructure/audit/store.go:132-136 | three instances and one failed first write: an accepted entry no longer lists |
| AuditLog.FailuresChangeNothing | internal/infrastructure/audit/store.go:36-110 | an unreadable file leaves file and instance as they were, a failing write the file; an instance without a key takes the salt of the file |
| AuditLog.Store.EnsureKey | internal/infrastructure/audit/store.go:175-199 | a cached key stays; otherwise the file's salt wins over the cached one, and that over a new one |
| AuditLog.Store.Append | internal/infrastructure/audit/store.go:36-66 | the file gains the entry, sealed, and the instance's salt; a file that cannot be read leaves everything, one that cannot be written leaves the file |
| AuditLog.Store.List | internal/infrastructure/audit/store.go:70-110 | an error when the file cannot be read; else the entries that open under the key, in order; the others are skipped |
| HistoryCache.LatestIsMaximum | internal/infrastructure/audit/history.go:62-79 | a secret is in the index exactly when it ever succeeded, at its latest success, wherever in the log that lies |
| HistoryCache.AnswerMeans | internal/infrastructure/audit/history.go:34-46 | an answer is exact: the time of the latest success, or that there was none; a log that could be read never gives an error |
| HistoryCache.AnswersAreExact | internal/infrastructure/audit/history.go:34-79 | over any interleaving each answer is exact for the part of the log that had been listed |
| HistoryCache.LoadedCacheAnswers | internal/infrastructure/audit/history.go:34-46 | a question that listed the log leaves the cache loaded with it, and a loaded cache answers without listing again |
| HistoryCache.LoadedCacheIsCurrent | internal/infrastructure/audit/history.go:34-79 | in every interleaving, a loaded cache with no record between append and drop is the index of the whole log |
| HistoryCache.AnswerNeverMissesAReturnedRecord | internal/infrastructure/audit/history.go:34-59 | a question asked after a record returned is answered at least as recently as that record |
| HistoryCache.MoveKeepsInv | internal/infrastructure/audit/history.go:34-79 | each step of any call, working or failing, keeps the invariant behind both |
| HistoryCache.History.Load | internal/infrastructure/audit/history.go:62-79 | the loop builds the index of what the store lists; an error leaves the cache as it was |
| HistoryCache.History.LastSuccess | internal/infrastructure/audit/history.go:34-46 | the answer comes from the cache, loaded first if it was not; an error leaves it unloaded |
| HistoryCache.History.Record | internal/infrastructure/audit/history.go:50-59 | the entry is appended and the cache dropped, whether or not the append worked |
| MaxAges.ParsesExactlyWhenItFits | internal/domain/policy.go:31-88 | any text, as its day and week groups and a rest that the library reads, is read as the exact sum if and only if that sum is positive and fits 64 bits |
| MaxAges.Decompose | internal/domain/policy.go:60-88 | every text is such groups and a rest that starts none |
| MaxAges.GroupsParseExactlyWhenTheyFit | internal/domain/policy.go:31-88 | in particular a text of groups alone |
| MaxAges.ParsesAs | internal/domain/policy.go:31-88 | what any text is read as: the wrapped sum if positive; an error when a number does not fit or the library rejects the rest |
| MaxAges.NoPolicyExactlyWhenEmpty | internal/domain/policy.go:31-35 | a text is read as no policy if and only if it is white space alone |
| MaxAges.DayAndWeekParse | internal/domain/policy.go:60-88 | `1d` is 86 400 seconds and `1w` seven times that, in nanoseconds |
| MaxAges.OverlongPolicyIsAccepted | internal/domain/policy.go:60-88 | a text whose sum does not fit is accepted with a short age |
| MaxAges.PrintedAgeReadsBack | internal/domain/policy.go:98-111 | every age in range reads back from its printed form, given that the library reads back what it printed where the age is not whole days |
| MaxAges.PrintedDaysReadBack | internal/domain/policy.go:98-111 | every whole number of days in range reads back, whatever the library does |
| MaxAges.PrintsLargestUnit | internal/domain/policy.go:98-111 | whole weeks are printed as weeks, other whole days as days, with the number that gives the age back, and no policy as `none` |
| MaxAges.ConsumeExtendedUnits | internal/domain/policy.go:60-88 | the loop ends, since the text shrinks, and consumes group by group with 64-bit arithmetic |
| MaxAges.ParseMaxAge | internal/domain/policy.go:31-56 | no policy exactly for white space alone, which is never an error; groups and a rest in the library's syntax add up; what is not positive is rejected |
| Compliance.AgeIsBounded | internal/infrastructure/scheduling/policy.go:47-78 | with evaluations at most an interval apart and each lasting at most so long, a secret whose own due rotations begin and succeed is never older than its maximum age plus interval plus duration, whatever becomes of the others and whatever else is recorded |
| Compliance.NothingDueAfterInstantPass | internal/infrastructure/scheduling/policy.go:64-78 | when all rotations succeed and take no time, nothing is due right after an evaluation |
| Compliance.PassBringsUpToDate | internal/infrastructure/scheduling/policy.go:64-78 | after an evaluation that reads the history and in which its own due rotations begin and succeed, a secret with a policy has a success that was within it when the evaluation began |
| Compliance.UnservedStaysDue | internal/infrastructure/scheduling/policy.go:64-78 | a due secret of whose own rotations none succeeded, because they failed, were skipped or never began, is due at every later time too |
| Compliance.PassRecords | internal/infrastructure/scheduling/policy.go:64-78 | an evaluation adds to the log one entry for each due secret whose turn came before the cancellation and that was not skipped, with its own result and the time it ended, and nothing else |
| Compliance.UnreadableHistoryRotatesNothing | internal/application/compliance.go:57-63 | an evaluation that cannot read the history rotates nothing and records nothing |
| Compliance.StandingMeans | internal/domain/policy.go:159-195 | attention is needed exactly when there is a policy and no readable success within it; due is that and readable; an overdue time exactly when overdue |
| Compliance.VerdictsAre | internal/domain/policy.go:159-188 | each verdict holds exactly when: no policy; an answer that could not be had; no success; a success further back than the policy, overdue by the difference; one within it; the age is the time since the success, never negative |
| Compliance.CheckCompliance | internal/application/compliance.go:41-74 | one standing per secret in order; where the history is missing or unreadable the secret is not due and its verdict, if it has a policy, is unknown; some such answer gives the reason |
| Compliance.DueNow | internal/application/compliance.go:88-96 | the due secrets are those overdue or never rotated, in order |
| Compliance.DueInOrder | internal/application/compliance.go:88-96 | the due secrets come in the order of their standings, once for each standing that is due |
| Compliance.EvaluatePolicies | internal/infrastructure/scheduling/policy.go:64-78 | the due secrets are rotated one after the other until the context is cancelled; each success or failure is recorded when it ends, and one that finds its lock taken leaves nothing |

## Left out

- Docker, SQL and Redis clients, `os/exec`, webhooks, the command line and the configuration loader: foreign I/O, present as port calls with any answer.
- Timeouts, contexts, signals and the polling for container health: wall-clock behaviour. Health is an event, a timeout a failing call.
- Argon2id, AES-GCM, random numbers, JSON and base64 encoding: taken as ideal.
- Password strength, the scanner's pattern tables, `init`, status tables, plan descriptions and error texts: presentation or table lookups with only easy claims.
- Cron expressions and schedules from labels: a trigger can come at any time in the model, so nothing is assumed of them.
- The host part of a MySQL account: accounts are told apart by address and user name. The statement text does carry it.
- The text of the Postgres statement.
- The saga takes the resolved container list as the fleet's answer; what resolving does is in RestartOrder.dfy.
- Ages beyond the range of a 64-bit duration: ages are unbounded integers in Compliance.dfy, wrapping is in MaxAge.dfy only.
- The lock table and the overlapping history calls are state machines over their atomic steps, not objects, because what is proved of them is about interleavings. The history object in HistoryCache.dfy covers calls that do not overlap.
- Two appends to the log, or two writes of one file, that overlap within themselves: each is one step.
- Aliases.RollbackKeepsSharedFiles: the writes and the undo are loops of their own over the same ports, journal and plan, because the machine tells files apart by path.
- RotateSecret.Host.ApplyCredential: accounts of one user name and different MySQL host parts are one account, because which of them a connection reaches is the server's choice.
- RotateSecret.Host.RestoreCredential: the same identification of accounts.
- AuditLog.Store.EnsureKey: an undecodable salt is part of the file being unreadable, which Append and List answer before.
- MaxAges.ParseMaxAge: the library's duration syntax is a parameter.
- Compliance.AgeIsBounded: bounds the age of a secret whose own due rotations succeed; a failing or skipped one stays due and is tried again at the next evaluation.
- SqlText.StatementReadsBack: reads with backslash escapes on, as the server does by default.
- Chain.ExplicitPasswordWorksOnce: about accounts that connect as themselves; with a separate admin account an explicit password keeps working.
