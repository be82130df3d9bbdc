/** The encrypted rotation log: one file, any number of store instances, each
    with its own cached salt and key.

    Encryption is ideal: a key is derived from passphrase and salt, and what
    was sealed under a key opens under that key and under no other. */
module AuditLog {
  import opened Text

  datatype Entry = Entry(name: string, at: int, success: bool)

  type Salt = nat

  datatype Key = Key(passphrase: string, salt: Salt)

  /** An encrypted entry as it lies in the file. */
  datatype Sealed = Sealed(key: Key, entry: Entry)

  function Unseal(key: Key, sealed: Sealed): Option<Entry>
  {
    if sealed.key == key then Some(sealed.entry) else None
  }

  /** The file's contents; `salt` is None while the field is empty. */
  datatype HistoryFile = HistoryFile(salt: Option<Salt>, entries: seq<Sealed>)

  const NEW_FILE := HistoryFile(None, [])

  /** What a store instance has cached. */
  datatype Cache = Cache(key: Option<Key>, salt: Option<Salt>)

  const EMPTY_CACHE := Cache(None, None)

  function Read(file: Option<HistoryFile>): HistoryFile
  {
    if file.None? then NEW_FILE else file.value
  }

  /** The file's salt if it has one, else the cached one, else a fresh one. */
  function WithKey(passphrase: string, c: Cache, hf: HistoryFile, newSalt: Salt): (c': Cache)
    ensures c'.key.Some?
  {
    if c.key.Some? then c
    else
      var salt := if hf.salt.Some? then hf.salt.value else if c.salt.Some? then c.salt.value else newSalt;
      Cache(Some(Key(passphrase, salt)), Some(salt))
  }

  /** Reads, seals, appends and rewrites the file with the cached salt.  When
      the file cannot be read (`readable`: opened, parsed, its salt decoded) nothing
      happens; when it cannot be written, only the cache has changed. */
  function Appended(passphrase: string, c: Cache, file: Option<HistoryFile>, e: Entry, newSalt: Salt, readable: bool,
                    writes: bool)
    : (Cache, Option<HistoryFile>)
  {
    if !readable then (c, file) else
    var c' := WithKey(passphrase, c, Read(file), newSalt);
    var salt := if c'.salt.Some? then c'.salt else Read(file).salt;
    var hf := HistoryFile(salt, Read(file).entries + [Sealed(c'.key.value, e)]);
    (c', if writes then Some(hf) else file)
  }

  /** The entries that open under the key; the others are skipped. */
  function Readable(key: Key, entries: seq<Sealed>): seq<Entry>
  {
    if entries == [] then []
    else
      var init := Readable(key, entries[..|entries|-1]);
      var last := Unseal(key, entries[|entries|-1]);
      if last.Some? then init + [last.value] else init
  }

  /** The entries, or None when the file cannot be read. */
  function Listed(passphrase: string, c: Cache, file: Option<HistoryFile>, newSalt: Salt, readable: bool)
    : (Cache, Option<seq<Entry>>)
  {
    if !readable then (c, None)
    else if Read(file).entries == [] then (c, Some([]))
    else
      var c' := WithKey(passphrase, c, Read(file), newSalt);
      (c', Some(Readable(c'.key.value, Read(file).entries)))
  }

  /** What fails leaves the file as it was, and what cannot read it the instance
      too; an instance without a key takes the file's salt before its own. */
  lemma FailuresChangeNothing(passphrase: string, c: Cache, file: Option<HistoryFile>, e: Entry, newSalt: Salt,
                              readable: bool, writes: bool)
    ensures var (c', file') := Appended(passphrase, c, file, e, newSalt, readable, writes);
            && (!(readable && writes) ==> file' == file)
            && (!readable ==> c' == c)
    ensures !readable ==> Listed(passphrase, c, file, newSalt, false) == (c, None)
    ensures c.key.None? && Read(file).salt.Some? ==> WithKey(passphrase, c, Read(file), newSalt).salt == Read(file).salt
  {}

  // ---------------------------------------------------------------- the object

  class Disk {
    var file: Option<HistoryFile>

    constructor ()
      ensures file == None
    {
      file := None;
    }
  }

  class Store {
    const disk: Disk
    const passphrase: string
    var derivedKey: Option<Key>
    var salt: Option<Salt>

    function View(): Cache
      reads this
    {
      Cache(derivedKey, salt)
    }

    constructor (disk: Disk, passphrase: string)
      ensures View() == EMPTY_CACHE && this.disk == disk && this.passphrase == passphrase
    {
      this.disk, this.passphrase := disk, passphrase;
      derivedKey, salt := None, None;
    }

    method EnsureKey(hf: HistoryFile, newSalt: Salt)
      modifies this
      ensures View() == WithKey(passphrase, old(View()), hf, newSalt)
    {
      if derivedKey.Some? {
        return;
      }
      if hf.salt.Some? {
        salt := hf.salt;
      }
      if salt.None? {
        salt := Some(newSalt);
      }
      derivedKey := Some(Key(passphrase, salt.value));
    }

    method Append(e: Entry, newSalt: Salt, readable: bool, writes: bool) returns (ok: bool)
      modifies this, disk
      ensures ok == (readable && writes)
      ensures (View(), disk.file) == Appended(passphrase, old(View()), old(disk.file), e, newSalt, readable, writes)
    {
      if !readable {
        return false;
      }
      var hf := Read(disk.file);
      EnsureKey(hf, newSalt);
      hf := hf.(entries := hf.entries + [Sealed(derivedKey.value, e)]);
      if salt.Some? {
        hf := hf.(salt := salt);
      }
      if writes {
        disk.file := Some(hf);
      }
      ok := writes;
    }

    method List(newSalt: Salt, readable: bool) returns (entries: Option<seq<Entry>>)
      modifies this
      ensures entries.Some? <==> readable
      ensures (View(), entries) == Listed(passphrase, old(View()), disk.file, newSalt, readable)
    {
      if !readable {
        return None;
      }
      var hf := Read(disk.file);
      if |hf.entries| == 0 {
        return Some([]);
      }
      EnsureKey(hf, newSalt);
      var key := derivedKey.value;
      ghost var c := View();
      var list: seq<Entry> := [];
      for i := 0 to |hf.entries|
        invariant View() == c && list == Readable(key, hf.entries[..i])
      {
        assert hf.entries[..i+1][..i] == hf.entries[..i];
        var unsealed := Unseal(key, hf.entries[i]);
        if unsealed.Some? {
          list := list + [unsealed.value];
        }
      }
      assert hf.entries[..|hf.entries|] == hf.entries;
      entries := Some(list);
    }
  }

  // ---------------------------------------------------------------- any number of stores

  datatype Op = AppendOp(store: nat, entry: Entry, newSalt: Salt, readable: bool, writes: bool)
              | ListOp(store: nat, newSalt: Salt, readable: bool)

  datatype System = System(file: Option<HistoryFile>, caches: seq<Cache>)

  function Do(passphrase: string, sys: System, op: Op): System
    requires op.store < |sys.caches|
  {
    match op
    case AppendOp(i, e, newSalt, readable, writes) =>
      var (c, file) := Appended(passphrase, sys.caches[i], sys.file, e, newSalt, readable, writes);
      System(file, sys.caches[i := c])
    case ListOp(i, newSalt, readable) =>
      System(sys.file, sys.caches[i := Listed(passphrase, sys.caches[i], sys.file, newSalt, readable).0])
  }

  ghost predicate ValidOps(stores: nat, ops: seq<Op>)
  {
    forall k :: 0 <= k < |ops| ==> ops[k].store < stores
  }

  /** The system after a sequence of operations by `stores` new instances. */
  ghost function AfterOps(passphrase: string, stores: nat, ops: seq<Op>): (sys: System)
    requires ValidOps(stores, ops)
    ensures |sys.caches| == stores
  {
    if ops == [] then System(None, seq(stores, i => EMPTY_CACHE))
    else Do(passphrase, AfterOps(passphrase, stores, ops[..|ops|-1]), ops[|ops|-1])
  }

  /** An append that reports success. */
  predicate Accepts(op: Op)
  {
    op.AppendOp? && op.readable && op.writes
  }

  /** The entries whose append reported success, in order. */
  function Accepted(ops: seq<Op>): seq<Entry>
  {
    if ops == [] then []
    else
      var init, last := Accepted(ops[..|ops|-1]), ops[|ops|-1];
      if Accepts(last) then init + [last.entry] else init
  }

  function Entries(sealed: seq<Sealed>): (entries: seq<Entry>)
    ensures |entries| == |sealed|
  {
    seq(|sealed|, i requires 0 <= i < |sealed| => sealed[i].entry)
  }

  /** A cache holds a key only for its own salt. */
  predicate OwnKey(passphrase: string, c: Cache)
  {
    if c.key.None? then c.salt.None? else c.salt.Some? && c.key.value == Key(passphrase, c.salt.value)
  }

  ghost predicate AllUnder(key: Key, entries: seq<Sealed>)
  {
    forall k :: 0 <= k < |entries| ==> entries[k].key == key
  }

  /** No key opens all of them. */
  ghost predicate Mixed(entries: seq<Sealed>)
  {
    exists a, b :: 0 <= a < b < |entries| && entries[a].key != entries[b].key
  }

  // ---------------------------------------------------------------- what can be read back

  /** This cache has the file's key, or will derive it. */
  predicate InStep(c: Cache, file: Option<HistoryFile>)
  {
    file.None? || c.key.None? || c.salt == file.value.salt
  }

  /** Every accepted append was by an instance in step with the file. */
  ghost predicate KeptInStep(passphrase: string, stores: nat, ops: seq<Op>)
    requires ValidOps(stores, ops)
  {
    forall k :: 0 <= k < |ops| && Accepts(ops[k]) ==>
      var sys := AfterOps(passphrase, stores, ops[..k]);
      InStep(sys.caches[ops[k].store], sys.file)
  }

  /** What any sequence of operations keeps: the file holds the accepted
      entries, the last of them under its salt; all of them are under that salt
      as long as the instances were in step, and never again afterwards. */
  ghost predicate LogInv(passphrase: string, sys: System, accepted: seq<Entry>, kept: bool)
  {
    && (forall i :: 0 <= i < |sys.caches| ==> OwnKey(passphrase, sys.caches[i]))
    && (sys.file.None? ==> accepted == [] && kept)
    && (sys.file.Some? ==> FileInv(passphrase, sys.file.value, accepted, kept))
  }

  ghost predicate FileInv(passphrase: string, hf: HistoryFile, accepted: seq<Entry>, kept: bool)
  {
    && hf.salt.Some? && hf.entries != []
    && hf.entries[|hf.entries|-1].key == Key(passphrase, hf.salt.value)
    && Entries(hf.entries) == accepted
    && (if kept then AllUnder(Key(passphrase, hf.salt.value), hf.entries) else Mixed(hf.entries))
  }

  lemma OneMoreKeepsFileInv(passphrase: string, hf: HistoryFile, accepted: seq<Entry>, kept: bool, salt: Salt, e: Entry)
    requires FileInv(passphrase, hf, accepted, kept)
    ensures FileInv(passphrase, HistoryFile(Some(salt), hf.entries + [Sealed(Key(passphrase, salt), e)]),
                    accepted + [e],
                    kept && Some(salt) == hf.salt)
  {
    var n := |hf.entries|;
    var more := hf.entries + [Sealed(Key(passphrase, salt), e)];
    assert more[n-1] == hf.entries[n-1] && more[n].key == Key(passphrase, salt);
    assert Entries(more) == Entries(hf.entries) + [e];
    if kept && Some(salt) != hf.salt {
      assert more[n-1].key != more[n].key;
    } else if !kept {
      var a, b :| 0 <= a < b < n && hf.entries[a].key != hf.entries[b].key;
      assert more[a].key != more[b].key;
    }
  }

  lemma DoKeepsLogInv(passphrase: string, sys: System, op: Op, accepted: seq<Entry>, kept: bool)
    requires op.store < |sys.caches| && LogInv(passphrase, sys, accepted, kept)
    ensures LogInv(passphrase, Do(passphrase, sys, op), if Accepts(op) then accepted + [op.entry] else accepted,
                   kept && (Accepts(op) ==> InStep(sys.caches[op.store], sys.file)))
  {
    hide FileInv;
    if Accepts(op) {
      var c := WithKey(passphrase, sys.caches[op.store], Read(sys.file), op.newSalt);
      if sys.file.Some? {
        FileHasSalt(passphrase, sys.file.value, accepted, kept);
        OneMoreKeepsFileInv(passphrase, sys.file.value, accepted, kept, c.salt.value, op.entry);
      } else {
        FirstEntry(passphrase, c.salt.value, op.entry);
      }
    }
  }

  lemma FileHasSalt(passphrase: string, hf: HistoryFile, accepted: seq<Entry>, kept: bool)
    requires FileInv(passphrase, hf, accepted, kept)
    ensures hf.salt.Some?
  {}

  lemma FirstEntry(passphrase: string, salt: Salt, e: Entry)
    ensures FileInv(passphrase, HistoryFile(Some(salt), [] + [Sealed(Key(passphrase, salt), e)]), [] + [e], true)
  {
    assert Entries([] + [Sealed(Key(passphrase, salt), e)]) == [e];
  }

  lemma {:induction false} OpsKeepLogInv(passphrase: string, stores: nat, ops: seq<Op>)
    requires ValidOps(stores, ops)
    ensures LogInv(passphrase, AfterOps(passphrase, stores, ops), Accepted(ops), KeptInStep(passphrase, stores, ops))
  {
    hide Do, LogInv;
    if ops == [] {
      NothingLogged(passphrase, stores);
    } else {
      var init := ops[..|ops|-1];
      assert forall k :: 0 <= k <= |init| ==> init[..k] == ops[..k];
      OpsKeepLogInv(passphrase, stores, init);
      DoKeepsLogInv(passphrase, AfterOps(passphrase, stores, init), ops[|ops|-1], Accepted(init),
                    KeptInStep(passphrase, stores, init));
      KeptSnoc(passphrase, stores, ops);
    }
  }

  lemma NothingLogged(passphrase: string, stores: nat)
    ensures LogInv(passphrase, AfterOps(passphrase, stores, []), Accepted([]), KeptInStep(passphrase, stores, []))
  {}

  lemma KeptSnoc(passphrase: string, stores: nat, ops: seq<Op>)
    requires ValidOps(stores, ops) && ops != []
    ensures var init, last := ops[..|ops|-1], ops[|ops|-1];
            var sys := AfterOps(passphrase, stores, init);
            KeptInStep(passphrase, stores, ops)
            <==> KeptInStep(passphrase, stores, init) && (Accepts(last) ==> InStep(sys.caches[last.store], sys.file))
  {
    hide AfterOps, InStep;
    var init := ops[..|ops|-1];
    assert forall k :: 0 <= k <= |init| ==> init[..k] == ops[..k];
  }

  lemma {:induction false} AllReadable(key: Key, entries: seq<Sealed>)
    ensures |Readable(key, entries)| <= |entries|
    ensures Readable(key, entries) == Entries(entries) <==> AllUnder(key, entries)
    ensures |Readable(key, entries)| == |entries| ==> AllUnder(key, entries)
  {
    if entries != [] {
      var init, last := entries[..|entries|-1], entries[|entries|-1];
      AllReadable(key, init);
      assert Entries(entries) == Entries(init) + [last.entry];
      assert forall k :: 0 <= k < |init| ==> entries[k] == init[k];
    }
  }

  /** The log round trip, exactly: instance i lists the accepted entries, all of
      them and in order, if and only if every accepted append was by an instance
      in step with the file, and so is instance i itself.  One with nothing
      cached always is. */
  lemma ListsExactlyWhenInStep(passphrase: string, stores: nat, ops: seq<Op>, i: nat, newSalt: Salt)
    requires ValidOps(stores, ops) && i < stores
    ensures var sys := AfterOps(passphrase, stores, ops);
            && (Listed(passphrase, sys.caches[i], sys.file, newSalt, true).1 == Some(Accepted(ops))
                <==> KeptInStep(passphrase, stores, ops) && InStep(sys.caches[i], sys.file))
            && (Listed(passphrase, EMPTY_CACHE, sys.file, newSalt, true).1 == Some(Accepted(ops))
                <==> KeptInStep(passphrase, stores, ops))
  {
    OpsKeepLogInv(passphrase, stores, ops);
    hide AfterOps, Accepted, KeptInStep;
    var sys := AfterOps(passphrase, stores, ops);
    CacheListsExactlyWhen(passphrase, sys, Accepted(ops), KeptInStep(passphrase, stores, ops), sys.caches[i], newSalt);
    CacheListsExactlyWhen(passphrase, sys, Accepted(ops), KeptInStep(passphrase, stores, ops), EMPTY_CACHE, newSalt);
  }

  lemma CacheListsExactlyWhen(passphrase: string, sys: System, accepted: seq<Entry>, kept: bool, c: Cache,
                              newSalt: Salt)
    requires LogInv(passphrase, sys, accepted, kept) && OwnKey(passphrase, c)
    ensures Listed(passphrase, c, sys.file, newSalt, true).1 == Some(accepted) <==> kept && InStep(c, sys.file)
  {
    if sys.file.Some? {
      var hf := sys.file.value;
      var key := WithKey(passphrase, c, hf, newSalt).key.value;
      AllReadable(key, hf.entries);
      var last := |hf.entries| - 1;
      assert AllUnder(key, hf.entries) ==> hf.entries[last].key == key;
    }
  }

  /** One more append keeps any readable log readable exactly when the instance
      is in step with it. */
  lemma AppendKeepsReadableExactlyWhen(passphrase: string, c: Cache, hf: HistoryFile, e: Entry, newSalt: Salt)
    requires hf.salt.Some? && hf.entries != [] && OwnKey(passphrase, c)
    requires AllUnder(Key(passphrase, hf.salt.value), hf.entries)
    ensures var file := Appended(passphrase, c, Some(hf), e, newSalt, true, true).1;
            Listed(passphrase, EMPTY_CACHE, file, newSalt, true).1 == Some(Entries(hf.entries) + [e])
            <==> InStep(c, Some(hf))
  {
    var salt := WithKey(passphrase, c, hf, newSalt).salt.value;
    OneMoreKeepsFileInv(passphrase, hf, Entries(hf.entries), true, salt, e);
    hide FileInv;
    var sys := System(Appended(passphrase, c, Some(hf), e, newSalt, true, true).1, []);
    CacheListsExactlyWhen(passphrase, sys, Entries(hf.entries) + [e], InStep(c, Some(hf)), EMPTY_CACHE, newSalt);
  }

  // ---------------------------------------------------------------- when that is so

  /** No write fails while the file does not exist yet, or there is only one
      instance. */
  ghost predicate Orderly(passphrase: string, stores: nat, ops: seq<Op>)
    requires ValidOps(stores, ops)
  {
    stores <= 1 || forall k :: 0 <= k < |ops| && ops[k].AppendOp? && !Accepts(ops[k]) ==>
      AfterOps(passphrase, stores, ops[..k]).file.Some?
  }

  /** While the file does not exist nothing is cached, but by a single instance. */
  ghost predicate CachesInv(sys: System)
  {
    forall i :: 0 <= i < |sys.caches| ==>
      if sys.file.None? then |sys.caches| == 1 || sys.caches[i] == EMPTY_CACHE else InStep(sys.caches[i], sys.file)
  }

  lemma DoKeepsCachesInv(passphrase: string, sys: System, op: Op, accepted: seq<Entry>, kept: bool)
    requires op.store < |sys.caches| && CachesInv(sys) && LogInv(passphrase, sys, accepted, kept)
    requires |sys.caches| > 1 && op.AppendOp? && !Accepts(op) ==> sys.file.Some?
    ensures CachesInv(Do(passphrase, sys, op))
    ensures Accepts(op) ==> InStep(sys.caches[op.store], sys.file)
    ensures sys.file.Some? ==>
              Do(passphrase, sys, op).file.Some? && Do(passphrase, sys, op).file.value.salt == sys.file.value.salt
  {}

  lemma {:induction false} OrderlyStaysInStep(passphrase: string, stores: nat, ops: seq<Op>)
    requires ValidOps(stores, ops) && Orderly(passphrase, stores, ops)
    ensures KeptInStep(passphrase, stores, ops) && CachesInv(AfterOps(passphrase, stores, ops))
  {
    hide Do, LogInv, CachesInv, InStep;
    if ops == [] {
      NothingCached(passphrase, stores);
    } else {
      var init := ops[..|ops|-1];
      OrderlyPrefix(passphrase, stores, ops);
      OrderlyStaysInStep(passphrase, stores, init);
      OpsKeepLogInv(passphrase, stores, init);
      DoKeepsCachesInv(passphrase, AfterOps(passphrase, stores, init), ops[|ops|-1], Accepted(init),
                       KeptInStep(passphrase, stores, init));
      KeptSnoc(passphrase, stores, ops);
    }
  }

  lemma NothingCached(passphrase: string, stores: nat)
    ensures KeptInStep(passphrase, stores, []) && CachesInv(AfterOps(passphrase, stores, []))
  {}

  lemma OrderlyPrefix(passphrase: string, stores: nat, ops: seq<Op>)
    requires ValidOps(stores, ops) && Orderly(passphrase, stores, ops) && ops != []
    ensures var init := ops[..|ops|-1];
            && Orderly(passphrase, stores, init)
            && (stores > 1 && ops[|ops|-1].AppendOp? && !Accepts(ops[|ops|-1]) ==>
                  AfterOps(passphrase, stores, init).file.Some?)
  {
    hide AfterOps;
    var init := ops[..|ops|-1];
    assert forall m :: 0 <= m <= |init| ==> init[..m] == ops[..m];
  }

  /** In an orderly run, whichever instance lists gets back exactly the accepted
      entries in order. */
  lemma ListReturnsWhatWasAppended(passphrase: string, stores: nat, ops: seq<Op>, i: nat, newSalt: Salt)
    requires ValidOps(stores, ops) && Orderly(passphrase, stores, ops) && i < stores
    ensures var sys := AfterOps(passphrase, stores, ops);
            Listed(passphrase, sys.caches[i], sys.file, newSalt, true).1 == Some(Accepted(ops))
  {
    hide AfterOps, Accepted, KeptInStep, Orderly, Listed;
    OrderlyStaysInStep(passphrase, stores, ops);
    ListsExactlyWhenInStep(passphrase, stores, ops, i, newSalt);
  }

  /** Once written, the salt stays. */
  lemma SaltNeverChanges(passphrase: string, stores: nat, ops: seq<Op>, k: nat)
    requires ValidOps(stores, ops) && Orderly(passphrase, stores, ops) && k <= |ops|
    requires AfterOps(passphrase, stores, ops[..k]).file.Some?
    ensures var now := AfterOps(passphrase, stores, ops).file;
            now.Some? && now.value.salt == AfterOps(passphrase, stores, ops[..k]).file.value.salt
    decreases |ops|
  {
    hide Do, CachesInv, LogInv, KeptInStep, Orderly;
    if k < |ops| {
      var init, last := ops[..|ops|-1], ops[|ops|-1];
      assert init[..k] == ops[..k];
      OrderlyPrefix(passphrase, stores, ops);
      SaltNeverChanges(passphrase, stores, init, k);
      OrderlyStaysInStep(passphrase, stores, init);
      OpsKeepLogInv(passphrase, stores, init);
      DoKeepsCachesInv(passphrase, AfterOps(passphrase, stores, init), last, Accepted(init),
                       KeptInStep(passphrase, stores, init));
    } else {
      assert ops[..k] == ops;
    }
  }

  // ---------------------------------------------------------------- when it is not

  lemma OneMoreOp(passphrase: string, stores: nat, ops: seq<Op>, op: Op)
    requires ValidOps(stores, ops) && op.store < stores
    ensures ValidOps(stores, ops + [op])
    ensures AfterOps(passphrase, stores, ops + [op]) == Do(passphrase, AfterOps(passphrase, stores, ops), op)
    ensures Accepted(ops + [op]) == if Accepts(op) then Accepted(ops) + [op.entry] else Accepted(ops)
  {
    hide Do;
    assert (ops + [op])[..|ops|] == ops;
  }

  lemma OneMoreSealed(key: Key, entries: seq<Sealed>, sealed: Sealed)
    ensures Readable(key, entries + [sealed])
         == if sealed.key == key then Readable(key, entries) + [sealed.entry] else Readable(key, entries)
  {
    assert (entries + [sealed])[..|entries|] == entries;
  }

  /** Three instances and one failed write: an entry that was accepted is lost. */
  lemma FailedFirstWriteLosesEntries(passphrase: string, a: Entry, b: Entry)
    ensures var ops := [AppendOp(0, a, 1, true, false), AppendOp(1, a, 2, true, true), AppendOp(0, b, 3, true, true)];
            var sys := AfterOps(passphrase, 3, ops);
            && Accepted(ops) == [a, b]
            && Listed(passphrase, sys.caches[2], sys.file, 4, true).1 == Some([b])
  {
    hide Accepted, Readable, AfterOps, Do, Listed;
    var o1, o2, o3 := AppendOp(0, a, 1, true, false), AppendOp(1, a, 2, true, true), AppendOp(0, b, 3, true, true);
    InThree(o1, o2, o3);
    NoOps(passphrase);
    OneMoreOp(passphrase, 3, [], o1);
    OneMoreOp(passphrase, 3, [o1], o2);
    OneMoreOp(passphrase, 3, [o1, o2], o3);
    ThreeAppends(passphrase, a, b);
    LastOneListed(passphrase, a, b);
  }

  lemma LastOneListed(passphrase: string, a: Entry, b: Entry)
    ensures var sealed := [Sealed(Key(passphrase, 2), a), Sealed(Key(passphrase, 1), b)];
            Listed(passphrase, EMPTY_CACHE, Some(HistoryFile(Some(1), sealed)), 4, true).1 == Some([b])
  {
    hide Readable;
    var old2, new1 := Sealed(Key(passphrase, 2), a), Sealed(Key(passphrase, 1), b);
    InThree(old2, new1, new1);
    NoOps(passphrase);
    OneMoreSealed(Key(passphrase, 1), [], old2);
    OneMoreSealed(Key(passphrase, 1), [old2], new1);
    assert [] + [b] == [b];
  }

  lemma InThree<T>(x: T, y: T, z: T)
    ensures [] + [x] == [x] && [x] + [y] == [x, y] && [x, y] + [z] == [x, y, z]
  {}

  lemma NoOps(passphrase: string)
    ensures AfterOps(passphrase, 3, []) == System(None, [EMPTY_CACHE, EMPTY_CACHE, EMPTY_CACHE])
    ensures Accepted([]) == []
    ensures forall key :: Readable(key, []) == []
  {}

  lemma ThreeAppends(passphrase: string, a: Entry, b: Entry)
    ensures var none := System(None, [EMPTY_CACHE, EMPTY_CACHE, EMPTY_CACHE]);
            var sys := Do(passphrase, Do(passphrase, Do(passphrase, none,
                          AppendOp(0, a, 1, true, false)), AppendOp(1, a, 2, true, true)),
                           AppendOp(0, b, 3, true, true));
            && sys.file == Some(HistoryFile(Some(1), [Sealed(Key(passphrase, 2), a), Sealed(Key(passphrase, 1), b)]))
            && sys.caches[2] == EMPTY_CACHE
  {
    var none := System(None, [EMPTY_CACHE, EMPTY_CACHE, EMPTY_CACHE]);
    InThree(Sealed(Key(passphrase, 2), a), Sealed(Key(passphrase, 1), b), Sealed(Key(passphrase, 1), b));
    var s1 := Do(passphrase, none, AppendOp(0, a, 1, true, false));
    var s2 := Do(passphrase, s1, AppendOp(1, a, 2, true, true));
    assert s1.file == None && s1.caches[0] == Cache(Some(Key(passphrase, 1)), Some(1)) && s1.caches[1] == EMPTY_CACHE;
    assert s2.file == Some(HistoryFile(Some(2), [Sealed(Key(passphrase, 2), a)]));
  }
}
