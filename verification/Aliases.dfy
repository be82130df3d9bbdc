/** What the undo plan does when two env file paths lead to the same file, as
    they do through a linked directory.  The configuration only rejects paths
    that are spelled alike. */
module Aliases {
  import opened Text
  import opened EnvFiles
  import opened Compose
  import opened Domain
  import opened Rotations
  import Saga

  /** Where each path leads; `disk` holds the files. */
  type Placement = string -> string

  /** Writes every path in order, journalling each. */
  function WriteAll(place: Placement, disk: Files, edit: string -> string, paths: seq<string>, j: Journal)
    : (Files, Journal)
    requires forall p :: p in paths ==> place(p) in disk
    ensures var (d, _) := WriteAll(place, disk, edit, paths, j); d.Keys == disk.Keys
  {
    if paths == [] then (disk, j)
    else
      var last := paths[|paths|-1];
      var (d, j') := WriteAll(place, disk, edit, paths[..|paths|-1], j);
      assert last in paths;
      (d[place(last) := edit(d[place(last)])], WithFileWritten(j', last, d[place(last)]))
  }

  /** Carries out restore actions in order. */
  function UndoAll(place: Placement, disk: Files, actions: seq<Action>): Files
  {
    if actions == [] then disk
    else
      var d := UndoAll(place, disk, actions[..|actions|-1]);
      var last := actions[|actions|-1];
      if last.RestoreFileAction? then d[place(last.path) := last.snapshot] else d
  }

  /** The journal once the primary file has been read. */
  function Opened(place: Placement, disk: Files, paths: seq<string>): Journal
    requires paths != [] && place(paths[0]) in disk
  {
    WithCurrent(EMPTY, paths[0], "", disk[place(paths[0])])
  }

  /** Some entry before position n leads to the same file. */
  ghost predicate SharedBefore(place: Placement, paths: seq<string>, n: nat, file: string)
    requires n <= |paths|
  {
    exists i :: 0 <= i < n && place(paths[i]) == file
  }

  /** After n writes the files written to hold one edit. */
  ghost predicate DiskSoFar(place: Placement, disk: Files, edit: string -> string, paths: seq<string>, n: nat, d: Files)
    requires n <= |paths|
  {
    && d.Keys == disk.Keys
    && forall f :: f in disk ==> d[f] == if SharedBefore(place, paths, n, f) then edit(disk[f]) else disk[f]
  }

  /** The bytes that path k's snapshot holds: the original, unless the file had
      already been written through another path. */
  ghost function SnapshotOf(place: Placement, disk: Files, edit: string -> string, paths: seq<string>, k: nat): string
    requires k < |paths| && place(paths[k]) in disk
  {
    var file := place(paths[k]);
    if SharedBefore(place, paths, k, file) then edit(disk[file]) else disk[file]
  }

  ghost predicate JournalSoFar(place: Placement, disk: Files, edit: string -> string, paths: seq<string>, n: nat,
                               j: Journal)
    requires n <= |paths| && forall k :: 0 <= k < |paths| ==> place(paths[k]) in disk
  {
    && j.written == paths[..n]
    && (forall k :: 0 <= k < n ==>
          paths[k] in j.backups && j.backups[paths[k]] == SnapshotOf(place, disk, edit, paths, k))
    && (forall p :: p in j.backups ==>
          p in paths[..n] || (n == 0 && |paths| > 0 && p == paths[0] && j.backups[p] == disk[place(p)]))
  }

  lemma {:induction false} WritesSoFar(place: Placement, disk: Files, edit: string -> string, paths: seq<string>,
                                       n: nat)
    requires n <= |paths| && paths != [] && Distinct(paths)
    requires forall p :: p in paths ==> place(p) in disk
    requires forall text :: edit(edit(text)) == edit(text)
    ensures var (d, j) := WriteAll(place, disk, edit, paths[..n], Opened(place, disk, paths));
            DiskSoFar(place, disk, edit, paths, n, d) && JournalSoFar(place, disk, edit, paths, n, j)
  {
    hide DiskSoFar, JournalSoFar, Distinct, WithFileWritten;
    if n == 0 {
      NothingWritten(place, disk, edit, paths);
    } else {
      WritesSoFar(place, disk, edit, paths, n - 1);
      var (d, j) := WriteAll(place, disk, edit, paths[..n-1], Opened(place, disk, paths));
      assert paths[..n][..n-1] == paths[..n-1] && paths[n-1] in paths;
      hide Opened;
      OneMoreEdit(place, disk, edit, paths, n - 1, d);
      OneMoreSnapshot(place, disk, edit, paths, n - 1, d, j);
    }
  }

  lemma NothingWritten(place: Placement, disk: Files, edit: string -> string, paths: seq<string>)
    requires paths != [] && forall p :: p in paths ==> place(p) in disk
    ensures forall k :: 0 <= k < |paths| ==> place(paths[k]) in disk
    ensures DiskSoFar(place, disk, edit, paths, 0, disk)
    ensures JournalSoFar(place, disk, edit, paths, 0, Opened(place, disk, paths))
  {}

  lemma OneMoreEdit(place: Placement, disk: Files, edit: string -> string, paths: seq<string>, n: nat, d: Files)
    requires n < |paths| && place(paths[n]) in disk && DiskSoFar(place, disk, edit, paths, n, d)
    requires forall text :: edit(edit(text)) == edit(text)
    ensures var f := place(paths[n]); f in d && DiskSoFar(place, disk, edit, paths, n + 1, d[f := edit(d[f])])
  {
    var file := place(paths[n]);
    assert file in d.Keys;
    forall f ensures SharedBefore(place, paths, n + 1, f) <==> SharedBefore(place, paths, n, f) || f == file {}
  }

  lemma OneMoreSnapshot(place: Placement, disk: Files, edit: string -> string, paths: seq<string>, n: nat, d: Files,
                        j: Journal)
    requires n < |paths| && Distinct(paths) && forall k :: 0 <= k < |paths| ==> place(paths[k]) in disk
    requires DiskSoFar(place, disk, edit, paths, n, d) && JournalSoFar(place, disk, edit, paths, n, j)
    ensures place(paths[n]) in d
    ensures JournalSoFar(place, disk, edit, paths, n + 1, WithFileWritten(j, paths[n], d[place(paths[n])]))
  {
    var file := place(paths[n]);
    assert file in d.Keys;
    assert d[file] == SnapshotOf(place, disk, edit, paths, n);
    assert n == 0 ==> SnapshotOf(place, disk, edit, paths, n) == disk[file];
    hide SharedBefore, SnapshotOf, DiskSoFar, Distinct;
    NotBefore(paths, n);
    TakeSnoc(paths, n);
    var j' := WithFileWritten(j, paths[n], d[file]);
    forall k | 0 <= k < n + 1
      ensures paths[k] in j'.backups && j'.backups[paths[k]] == SnapshotOf(place, disk, edit, paths, k)
    {
      if k < n {}
    }
  }

  lemma NotBefore(paths: seq<string>, n: nat)
    requires n < |paths| && Distinct(paths)
    ensures paths[n] !in paths[..n]
  {}

  /** Path k is the last that leads to this file. */
  ghost predicate LastAt(place: Placement, paths: seq<string>, f: string, k: nat)
  {
    k < |paths| && place(paths[k]) == f && forall m :: k < m < |paths| ==> place(paths[m]) != f
  }

  ghost predicate NoneAt(place: Placement, paths: seq<string>, f: string)
  {
    forall k :: 0 <= k < |paths| ==> place(paths[k]) != f
  }

  lemma LastOfMore(place: Placement, init: seq<string>, last: string, f: string, k: nat)
    ensures LastAt(place, init + [last], f, k) <==> if place(last) == f then k == |init| else LastAt(place, init, f, k)
    ensures NoneAt(place, init + [last], f) <==> place(last) != f && NoneAt(place, init, f)
  {
    var paths := init + [last];
    assert paths[|init|] == last && forall m :: 0 <= m < |init| ==> paths[m] == init[m];
  }

  /** The last path that leads to a file decides what the undo leaves in it. */
  lemma {:induction false} UndoSoFar(place: Placement, d: Files, written: seq<string>, backups: Files, f: string,
                                     k: nat)
    requires forall p :: p in written ==> p in backups
    ensures var after := UndoAll(place, d, FileActions(written, backups));
            && (LastAt(place, written, f, k) ==> written[k] in backups && f in after && after[f] == backups[written[k]])
            && (NoneAt(place, written, f) ==> (f in after <==> f in d) && (f in d ==> after[f] == d[f]))
  {
    if written != [] {
      hide UndoAll, FileActions;
      var init, last := written[..|written|-1], written[|written|-1];
      assert written == init + [last];
      assert last in written && forall p :: p in init ==> p in written;
      UndoSoFar(place, d, init, backups, f, k);
      OneMoreRestore(place, d, init, last, backups);
      LastOfMore(place, init, last, f, k);
      assert k < |init| ==> init[k] == written[k];
      hide LastAt, NoneAt;
    }
  }

  lemma OneMoreRestore(place: Placement, d: Files, init: seq<string>, last: string, backups: Files)
    requires last in backups
    ensures UndoAll(place, d, FileActions(init + [last], backups))
         == UndoAll(place, d, FileActions(init, backups))[place(last) := backups[last]]
  {
    assert (init + [last])[..|init|] == init;
    var actions := FileActions(init + [last], backups);
    assert actions[..|actions|-1] == FileActions(init, backups);
  }

  lemma LastWith(place: Placement, paths: seq<string>, i: nat) returns (k: nat)
    requires i < |paths|
    ensures LastAt(place, paths, place(paths[i]), k)
  {
    k := i;
    for n := i + 1 to |paths|
      invariant i <= k < n && place(paths[k]) == place(paths[i])
      invariant forall m :: k < m < n ==> place(paths[m]) != place(paths[i])
    {
      if place(paths[n]) == place(paths[i]) { k := n; }
    }
  }

  /** Two of the paths lead to this file. */
  ghost predicate Twice(place: Placement, paths: seq<string>, f: string)
  {
    exists a, b :: 0 <= a < b < |paths| && place(paths[a]) == f && place(paths[b]) == f
  }

  lemma UndoOne(place: Placement, disk: Files, edit: string -> string, paths: seq<string>, d: Files, j: Journal,
                f: string)
    requires forall k :: 0 <= k < |paths| ==> place(paths[k]) in disk
    requires DiskSoFar(place, disk, edit, paths, |paths|, d) && JournalSoFar(place, disk, edit, paths, |paths|, j)
    ensures var after := UndoAll(place, d, FileActions(j.written, j.backups));
            && (f in disk <==> f in after)
            && (f in disk ==> after[f] == if Twice(place, paths, f) then edit(disk[f]) else disk[f])
  {
    hide SharedBefore, Twice, UndoAll, FileActions, LastAt;
    assert j.written == paths;
    assert f in disk <==> f in d.Keys;
    if i :| 0 <= i < |paths| && place(paths[i]) == f {
      var k := LastWith(place, paths, i);
      UndoSoFar(place, d, paths, j.backups, f, k);
      SharedIffTwice(place, paths, k, f);
    } else {
      UndoSoFar(place, d, paths, j.backups, f, 0);
      NoneShared(place, paths, f);
    }
  }

  lemma NoneShared(place: Placement, paths: seq<string>, f: string)
    requires NoneAt(place, paths, f)
    ensures !SharedBefore(place, paths, |paths|, f) && !Twice(place, paths, f)
  {}

  lemma SharedIffTwice(place: Placement, paths: seq<string>, k: nat, f: string)
    requires LastAt(place, paths, f, k)
    ensures k < |paths| && place(paths[k]) == f
    ensures SharedBefore(place, paths, k, f) <==> Twice(place, paths, f)
  {}

  /** Restoring in write order leaves the edit in every file that two of the
      paths lead to; so it brings every file back exactly when the edit changes
      none of those. */
  lemma UndoRestoresExactlyWhenUnshared(place: Placement, disk: Files, edit: string -> string, paths: seq<string>)
    requires paths != [] && Distinct(paths) && forall p :: p in paths ==> place(p) in disk
    requires forall text :: edit(edit(text)) == edit(text)
    ensures var (d, j) := WriteAll(place, disk, edit, paths, Opened(place, disk, paths));
            var after := UndoAll(place, d, FileActions(j.written, j.backups));
            && (forall f :: f in disk <==> f in after)
            && (forall f :: f in disk ==> after[f] == if Twice(place, paths, f) then edit(disk[f]) else disk[f])
            && (after == disk <==> forall f :: f in disk && Twice(place, paths, f) ==> edit(disk[f]) == disk[f])
  {
    hide Twice, WriteAll, UndoAll, FileActions, JournalSoFar, DiskSoFar, Opened, Distinct;
    WritesSoFar(place, disk, edit, paths, |paths|);
    assert paths[..|paths|] == paths;
    var (d, j) := WriteAll(place, disk, edit, paths, Opened(place, disk, paths));
    var after := UndoAll(place, d, FileActions(j.written, j.backups));
    forall f
      ensures f in disk <==> f in after
      ensures f in disk ==> after[f] == if Twice(place, paths, f) then edit(disk[f]) else disk[f]
    {
      UndoOne(place, disk, edit, paths, d, j, f);
    }
    SameFiles(disk, after);
  }

  lemma SameFiles(disk: Files, after: Files)
    requires forall f :: f in disk <==> f in after
    ensures after == disk <==> forall f :: f in disk ==> after[f] == disk[f]
  {
    if forall f :: f in disk ==> after[f] == disk[f] {
      assert after.Keys == disk.Keys;
    }
  }

  // ---------------------------------------------------------------- through the ports

  /** The writes of a rotation, each through the port; None if one fails. */
  function WriteEach(place: Placement, disk: Files, key: string, value: string, paths: seq<string>, fates: seq<Fate>,
                     j: Journal)
    : Option<(Files, Journal)>
    requires |fates| == |paths|
  {
    if paths == [] then Some((disk, j))
    else
      var n := |paths| - 1;
      match WriteEach(place, disk, key, value, paths[..n], fates[..n], j)
      case None => None
      case Some((d, j')) =>
        var (before, d') := WriteFile(d, place(paths[n]), key, value, fates[n]);
        if before.None? then None else Some((d', WithFileWritten(j', paths[n], before.value)))
  }

  /** The undo of a rotation, each restore through the port; with the positions
      of those that fail. */
  function UndoEach(place: Placement, disk: Files, actions: seq<Action>, fates: seq<Fate>): (Files, seq<nat>)
    requires |fates| == |actions|
  {
    if actions == [] then (disk, [])
    else
      var n := |actions| - 1;
      var (d, failed) := UndoEach(place, disk, actions[..n], fates[..n]);
      if actions[n].RestoreFileAction? then
        var (ok, d') := RestoreFile(d, place(actions[n].path), actions[n].snapshot, fates[n]);
        (d', if ok then failed else failed + [n])
      else (d, failed)
  }

  /** The files the paths lead to hold the key. */
  ghost predicate AllHold(place: Placement, disk: Files, key: string, paths: seq<string>)
  {
    forall k :: 0 <= k < |paths| ==> place(paths[k]) in disk && Lookup(disk[place(paths[k])], key).Some?
  }

  lemma {:induction false} WritesSucceed(place: Placement, disk: Files, key: string, value: string,
                                         paths: seq<string>, fates: seq<Fate>)
    requires |fates| == |paths| > 0 && AllOk(fates) && ValidKey(key) && Base64Url(value)
    requires Distinct(paths) && AllHold(place, disk, key, paths)
    ensures forall p :: p in paths ==> place(p) in disk
    ensures WriteEach(place, disk, key, value, paths, fates, Opened(place, disk, paths))
         == Some(WriteAll(place, disk, text => Edit(text, key, value), paths, Opened(place, disk, paths)))
  {
    forall p | p in paths ensures place(p) in disk {
      var k :| 0 <= k < |paths| && paths[k] == p;
    }
    hide WriteEach, WriteAll, Opened, Edit, Lookup, ValidKey, Base64Url, Distinct;
    assert paths[..|paths|] == paths && fates[..|paths|] == fates;
    WritesSucceedSoFar(place, disk, key, value, paths, fates, |paths|);
  }

  lemma {:induction false} WritesSucceedSoFar(place: Placement, disk: Files, key: string, value: string,
                                              paths: seq<string>, fates: seq<Fate>, n: nat)
    requires |fates| == |paths| > 0 && AllOk(fates) && ValidKey(key) && Base64Url(value)
    requires Distinct(paths) && AllHold(place, disk, key, paths) && n <= |paths|
    requires forall p :: p in paths ==> place(p) in disk
    ensures WriteEach(place, disk, key, value, paths[..n], fates[..n], Opened(place, disk, paths))
         == Some(WriteAll(place, disk, text => Edit(text, key, value), paths[..n], Opened(place, disk, paths)))
  {
    hide Opened, Edit, Lookup, ValidKey, Base64Url, Distinct, WriteFile, WriteEach, WriteAll, WithFileWritten,
      JournalSoFar, DiskSoFar, AllOk, AllHold;
    var edit := (text: string) => Edit(text, key, value);
    var start := Opened(place, disk, paths);
    assert paths[..0] == [] && fates[..0] == [];
    NoWrites(place, disk, key, value, edit, start);
    if n > 0 {
      WritesSucceedSoFar(place, disk, key, value, paths, fates, n - 1);
      forall text ensures edit(edit(text)) == edit(text) { EditTwiceIsOnce(text, key, value); }
      WritesSoFar(place, disk, edit, paths, n - 1);
      var (d, j) := WriteAll(place, disk, edit, paths[..n-1], start);
      OkAt(fates, n - 1);
      OneWriteSucceeds(place, disk, key, value, paths, n - 1, d, fates[n-1]);
      TakeSnoc(paths, n - 1);
      TakeSnoc(fates, n - 1);
      OneMoreWrite(place, disk, key, value, paths[..n-1], fates[..n-1], start, paths[n-1], fates[n-1]);
    }
  }

  lemma NoWrites(place: Placement, disk: Files, key: string, value: string, edit: string -> string, j: Journal)
    ensures WriteEach(place, disk, key, value, [], [], j) == Some((disk, j))
    ensures WriteAll(place, disk, edit, [], j) == (disk, j)
  {}

  lemma OneMoreWrite(place: Placement, disk: Files, key: string, value: string, paths: seq<string>, fates: seq<Fate>,
                     j: Journal,
                     path: string, f: Fate)
    requires |fates| == |paths| && (forall p :: p in paths ==> place(p) in disk) && place(path) in disk
    requires WriteEach(place, disk, key, value, paths, fates, j)
             == Some(WriteAll(place, disk, text => Edit(text, key, value), paths, j))
    requires var (d, _) := WriteAll(place, disk, text => Edit(text, key, value), paths, j); var file := place(path);
             file in d && WriteFile(d, file, key, value, f) == (Some(d[file]), d[file := Edit(d[file], key, value)])
    ensures WriteEach(place, disk, key, value, paths + [path], fates + [f], j)
         == Some(WriteAll(place, disk, text => Edit(text, key, value), paths + [path], j))
  {
    hide Edit, WriteFile, WithFileWritten;
    assert (paths + [path])[..|paths|] == paths && (fates + [f])[..|paths|] == fates;
  }

  lemma OkAt(fates: seq<Fate>, n: nat)
    requires AllOk(fates) && n < |fates|
    ensures fates[n].ok
  {}

  lemma OneWriteSucceeds(place: Placement, disk: Files, key: string, value: string, paths: seq<string>, n: nat,
                         d: Files, f: Fate)
    requires n < |paths| && f.ok && ValidKey(key) && Base64Url(value) && AllHold(place, disk, key, paths)
    requires DiskSoFar(place, disk, text => Edit(text, key, value), paths, n, d)
    ensures var file := place(paths[n]);
            file in d && WriteFile(d, file, key, value, f) == (Some(d[file]), d[file := Edit(d[file], key, value)])
  {
    hide Lookup, Edit, ValidKey, Base64Url, SharedBefore;
    var file := place(paths[n]);
    assert file in d.Keys;
    GeneratedValueReadsBack(disk[file], key, value);
  }

  lemma {:induction false} RestoresSucceed(place: Placement, d: Files, written: seq<string>, backups: Files,
                                           fates: seq<Fate>)
    requires |fates| == |written| && AllOk(fates) && forall k :: 0 <= k < |written| ==>
               written[k] in backups && place(written[k]) in d
    ensures |FileActions(written, backups)| == |written|
    ensures UndoEach(place, d, FileActions(written, backups), fates)
            == (UndoAll(place, d, FileActions(written, backups)), [])
    ensures UndoAll(place, d, FileActions(written, backups)).Keys == d.Keys
  {
    if written != [] {
      var n := |written| - 1;
      RestoresSucceed(place, d, written[..n], backups, fates[..n]);
      var actions := FileActions(written, backups);
      assert actions[..n] == FileActions(written[..n], backups);
      assert actions[n] == RestoreFileAction(written[n], backups[written[n]]);
      hide FileActions;
    }
  }

  /** A rotation that wrote these paths and is rolled back, with no call
      failing: the outcome is a clean rollback, and yet every file that two of
      the paths lead to keeps the new value. */
  lemma RollbackKeepsSharedFiles(place: Placement, disk: Files, key: string, value: string, paths: seq<string>,
                                 writes: seq<Fate>, restores: seq<Fate>)
    requires paths != [] && Distinct(paths) && ValidKey(key) && Base64Url(value) && AllHold(place, disk, key, paths)
    requires |writes| == |paths| == |restores| && AllOk(writes) && AllOk(restores)
    ensures place(paths[0]) in disk
    ensures var written := WriteEach(place, disk, key, value, paths, writes, Opened(place, disk, paths));
            && written.Some?
            && var (d, j) := written.value;
               var actions := FileActions(j.written, j.backups);
               && |actions| == |restores|
               && var (after, failed) := UndoEach(place, d, actions, restores);
                  && Saga.UndoOutcome(failed) == Saga.RolledBack
                  && after.Keys == disk.Keys
                  && (forall f :: f in disk && Twice(place, paths, f) ==>
                        after[f] == Edit(disk[f], key, value) && Lookup(after[f], key) == Some(value))
                  && (after == disk <==> forall f :: f in disk && Twice(place, paths, f) ==>
                        Edit(disk[f], key, value) == disk[f])
  {
    hide Lookup, Edit, ValidKey, Base64Url, WriteEach, UndoEach, WriteAll, UndoAll, FileActions, Twice, Opened,
      Distinct, JournalSoFar, DiskSoFar, SnapshotOf;
    var edit := (text: string) => Edit(text, key, value);
    forall text ensures edit(edit(text)) == edit(text) { EditTwiceIsOnce(text, key, value); }
    WritesSucceed(place, disk, key, value, paths, writes);
    UndoRestoresExactlyWhenUnshared(place, disk, edit, paths);
    WritesSoFar(place, disk, edit, paths, |paths|);
    assert paths[..|paths|] == paths;
    var (d, j) := WriteAll(place, disk, edit, paths, Opened(place, disk, paths));
    AllRestorable(place, disk, edit, paths, d, j);
    RestoresSucceed(place, d, j.written, j.backups, restores);
    forall f | f in disk && Twice(place, paths, f) ensures Lookup(Edit(disk[f], key, value), key) == Some(value) {
      SharedFilesHold(place, disk, key, paths, f);
      GeneratedValueReadsBack(disk[f], key, value);
    }
  }

  lemma AllRestorable(place: Placement, disk: Files, edit: string -> string, paths: seq<string>, d: Files, j: Journal)
    requires forall k :: 0 <= k < |paths| ==> place(paths[k]) in disk
    requires DiskSoFar(place, disk, edit, paths, |paths|, d) && JournalSoFar(place, disk, edit, paths, |paths|, j)
    ensures j.written == paths && d.Keys == disk.Keys
    ensures forall k :: 0 <= k < |paths| ==> paths[k] in j.backups && place(paths[k]) in d
  {
    hide SnapshotOf, SharedBefore;
    assert forall f :: f in disk <==> f in d.Keys;
  }

  lemma SharedFilesHold(place: Placement, disk: Files, key: string, paths: seq<string>, f: string)
    requires Twice(place, paths, f) && AllHold(place, disk, key, paths)
    ensures f in disk && Lookup(disk[f], key).Some?
  {
    hide Lookup;
  }

  lemma TwoPathsOneFile(place: Placement, text: string, key: string, value: string, paths: seq<string>, file: string,
                        fates: seq<Fate>)
    requires |paths| == |fates| == 2 && paths[0] != paths[1] && place(paths[0]) == place(paths[1]) == file
    requires AllOk(fates)
    requires ValidKey(key) && Base64Url(value) && Lookup(text, key).Some?
    ensures Distinct(paths) && AllHold(place, map[file := text], key, paths)
    ensures var written := WriteEach(place, map[file := text], key, value, paths, fates,
                                     Opened(place, map[file := text], paths));
            && written.Some?
            && var (d, j) := written.value;
               var actions := FileActions(j.written, j.backups);
               |actions| == 2 && UndoEach(place, d, actions, fates) == (map[file := Edit(text, key, value)], [])
  {
    hide Lookup, Edit, ValidKey, Base64Url, WriteEach, UndoEach, FileActions, Opened, Twice, AllOk;
    var disk := map[file := text];
    RollbackKeepsSharedFiles(place, disk, key, value, paths, fates, fates);
    BothLeadThere(place, paths, file);
    var (d, j) := WriteEach(place, disk, key, value, paths, fates, Opened(place, disk, paths)).value;
    var (after, failed) := UndoEach(place, d, FileActions(j.written, j.backups), fates);
    assert after.Keys == {file} && after[file] == Edit(text, key, value);
    assert after == map[file := Edit(text, key, value)];
    assert failed == [];
  }

  lemma BothLeadThere(place: Placement, paths: seq<string>, file: string)
    requires |paths| == 2 && place(paths[0]) == place(paths[1]) == file
    ensures Twice(place, paths, file)
  {}

  /** Two spellings of one path. */
  lemma SharedFileHappens() returns (place: Placement, disk: Files, paths: seq<string>, fates: seq<Fate>)
    ensures paths == ["/srv/app/.env", "/srv/app/../app/.env"] && Distinct(paths) && AllHold(place, disk, "KEY", paths)
    ensures disk == map["/srv/app/.env" := "KEY=old"]
    ensures |fates| == 2 && AllOk(fates)
    ensures var written := WriteEach(place, disk, "KEY", "new", paths, fates, Opened(place, disk, paths));
            && written.Some?
            && var (d, j) := written.value;
               var actions := FileActions(j.written, j.backups);
               |actions| == 2 && UndoEach(place, d, actions, fates) == (map["/srv/app/.env" := "KEY=new"], [])
  {
    hide Lookup, Edit, ValidKey, Base64Url, WriteEach, UndoEach, FileActions, Opened, Distinct, AllHold;
    var file := "/srv/app/.env";
    place := _ => file;
    paths := [file, "/srv/app/../app/.env"];
    disk := map[file := "KEY=old"];
    fates := seq(2, _ => Fine(""));
    OneLineFile();
    assert |paths[0]| != |paths[1]|;
    TwoPathsOneFile(place, "KEY=old", "KEY", "new", paths, file, fates);
  }

  lemma OneLineFile()
    ensures ValidKey("KEY") && Base64Url("new")
    ensures Lookup("KEY=old", "KEY").Some? && Edit("KEY=old", "KEY", "new") == "KEY=new"
  {
    ExampleKey();
    hide Lookup, Edit;
    AssignmentEdits("KEY", "old", "new");
    hide *;
    assert "KEY" + "=" + "old" == "KEY=old" && "KEY" + "=" + "new" == "KEY=new";
  }

  /** Editing a file twice with a generated value is editing it once. */
  lemma EditTwiceIsOnce(data: string, key: string, value: string)
    requires ValidKey(key) && Base64Url(value)
    ensures Edit(Edit(data, key, value), key, value) == Edit(data, key, value)
  {
    hide ParseLine, TrimSpace, Unquote;
    if Lookup(data, key) == None {
      EditOfAbsentKey(data, key, value);
    } else {
      var lines, i := ParseLines(data), LastIndex(ParseLines(data), key);
      Base64UrlIsRepresentable(lines[i].quoted, value);
      EditRoundTrip(data, key, value);
      SameKeySameIndex(lines, i, SetLine(lines[i], value));
      hide ParseLine, ParseLines, Lookup, Rendered, ValidKey, Base64Url;
      var edited := lines[i := SetLine(lines[i], value)];
      assert SetLine(edited[i], value) == edited[i];
      assert edited[i := SetLine(edited[i], value)] == edited;
    }
  }
}
