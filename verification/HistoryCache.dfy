/** The cached history: when each secret last rotated successfully. */
module HistoryCache {
  import opened AuditLog

  // ---------------------------------------------------------------- the index

  /** The latest success per secret. */
  function Latest(log: seq<Entry>): map<string, int>
  {
    if log == [] then map[]
    else
      var init, e := Latest(log[..|log|-1]), log[|log|-1];
      if e.success && (e.name !in init || e.at > init[e.name]) then init[e.name := e.at] else init
  }

  ghost predicate SucceededAt(log: seq<Entry>, name: string, at: int)
  {
    exists k :: 0 <= k < |log| && log[k] == Entry(name, at, true)
  }

  /** A secret is indexed exactly when it ever succeeded, at the time of its
      latest success, wherever in the log that entry lies. */
  lemma {:induction false} LatestIsMaximum(log: seq<Entry>, name: string)
    ensures name in Latest(log) <==> exists at :: SucceededAt(log, name, at)
    ensures name in Latest(log) ==> SucceededAt(log, name, Latest(log)[name])
    ensures forall at :: SucceededAt(log, name, at) ==> name in Latest(log) && at <= Latest(log)[name]
  {
    if log != [] {
      var init, e := log[..|log|-1], log[|log|-1];
      LatestIsMaximum(init, name);
      forall at | SucceededAt(log, name, at) ensures SucceededAt(init, name, at) || e == Entry(name, at, true) {
        var k :| 0 <= k < |log| && log[k] == Entry(name, at, true);
        assert k < |init| ==> init[k] == log[k];
      }
      forall at | SucceededAt(init, name, at) ensures SucceededAt(log, name, at) {
        var k :| 0 <= k < |init| && init[k] == Entry(name, at, true);
        assert log[k] == init[k];
      }
      if e.success && e.name == name { assert SucceededAt(log, name, e.at); }
    }
  }

  /** What the history answers about one secret. */
  datatype Answer = Unreadable | NoSuccess | LastAt(time: int)

  function AnswerIn(last: map<string, int>, name: string): Answer
  {
    if name in last then LastAt(last[name]) else NoSuccess
  }

  /** The answer from a log that could be read is exact: the time of the
      latest success, or that there was none. */
  lemma AnswerMeans(log: seq<Entry>, name: string, t: int)
    ensures AnswerIn(Latest(log), name) == LastAt(t)
            <==> SucceededAt(log, name, t) && forall at :: SucceededAt(log, name, at) ==> at <= t
    ensures AnswerIn(Latest(log), name) == NoSuccess <==> forall at :: !SucceededAt(log, name, at)
    ensures AnswerIn(Latest(log), name) != Unreadable
  {
    LatestIsMaximum(log, name);
    hide Latest, SucceededAt;
  }

  // ---------------------------------------------------------------- the object

  /** The history with its cache.  Calls that do not overlap see this object;
      calls that do are the machine below. */
  class History {
    const store: Store
    var loaded: bool
    var last: map<string, int>

    constructor (store: Store)
      ensures this.store == store && !loaded
    {
      this.store, loaded, last := store, false, map[];
    }

    method Load(newSalt: Salt, readable: bool) returns (ok: bool)
      modifies this, store
      ensures var (c, entries) := Listed(store.passphrase, old(store.View()), store.disk.file, newSalt, readable);
              && store.View() == c && (ok <==> entries.Some?)
              && (if ok then loaded && last == Latest(entries.value) else loaded == old(loaded) && last == old(last))
    {
      var entries := store.List(newSalt, readable);
      if entries.None? {
        return false;
      }
      ghost var c := store.View();
      last := map[];
      for i := 0 to |entries.value|
        invariant last == Latest(entries.value[..i]) && store.View() == c
      {
        assert entries.value[..i+1][..i] == entries.value[..i];
        var e := entries.value[i];
        if e.success {
          if e.name !in last || e.at > last[e.name] {
            last := last[e.name := e.at];
          }
        }
      }
      assert entries.value[..|entries.value|] == entries.value;
      loaded := true;
      ok := true;
    }

    /** An error leaves the cache unloaded, so that the next question tries again. */
    method LastSuccess(name: string, newSalt: Salt, readable: bool) returns (answer: Answer)
      modifies this, store
      ensures old(loaded) ==> loaded && last == old(last) && store.View() == old(store.View())
      ensures var (c, entries) := Listed(store.passphrase, old(store.View()), store.disk.file, newSalt, readable);
              !old(loaded) ==>
                && store.View() == c && (loaded <==> entries.Some?)
                && (loaded ==> last == Latest(entries.value))
      ensures answer == if loaded then AnswerIn(last, name) else Unreadable
      ensures answer == Unreadable <==> !old(loaded) && !readable
    {
      if !loaded {
        var ok := Load(newSalt, readable);
        if !ok {
          return Unreadable;
        }
      }
      answer := AnswerIn(last, name);
    }

    method Record(e: Entry, newSalt: Salt, readable: bool, writes: bool) returns (ok: bool)
      modifies this, store, store.disk
      ensures ok == (readable && writes) && !loaded
      ensures (store.View(), store.disk.file)
           == Appended(store.passphrase, old(store.View()), old(store.disk.file), e, newSalt, readable, writes)
    {
      ok := store.Append(e, newSalt, readable, writes);
      loaded := false;
      last := map[];
    }
  }

  // ---------------------------------------------------------------- every interleaving

  /** Where one call is.  `Reading` holds the mutex and is between listing the
      log and publishing the index; `seen` is how much of the log it listed.
      `since` is how much of the log had been appended by calls of Record that
      returned before this call of LastSuccess started. */
  datatype Call =
    | Recording(entry: Entry)
    | Appended'(at: nat)                    // appended as entry number `at`, cache not yet dropped
    | Recorded(wrote: bool, at: nat)
    | Asking(name: string)
    | Waiting(name: string, since: set<nat>)
    | Reading(name: string, since: set<nat>, seen: nat)
    | Answered(name: string, since: set<nat>, from: nat, answer: Answer)
    | Failed(name: string)                  // the log could not be listed

  /** The log is only ever appended to.  `basis` is how much of it the loaded
      cache was built from. */
  datatype Shared = Shared(log: seq<Entry>, loaded: bool, basis: nat, last: map<string, int>,
                           locked: bool, calls: seq<Call>)

  /** The entries whose Record has returned. */
  function Returned(calls: seq<Call>): set<nat>
  {
    set i | 0 <= i < |calls| && calls[i].Recorded? && calls[i].wrote :: calls[i].at
  }

  /** What a reader has listed. */
  function FirstOf(log: seq<Entry>, n: nat): seq<Entry>
  {
    if n <= |log| then log[..n] else log
  }

  /** One atomic step of call i; `works` says whether the store succeeds, where
      the step appends to it or lists it. */
  function Move(m: Shared, i: nat, works: bool): Shared
    requires i < |m.calls|
  {
    match m.calls[i]
    case Recording(e) =>
      if works then m.(log := m.log + [e], calls := m.calls[i := Appended'(|m.log|)])
      else if m.locked then m
      else m.(loaded := false, last := map[], calls := m.calls[i := Recorded(false, 0)])
    case Appended'(at) =>
      if m.locked then m else m.(loaded := false, last := map[], calls := m.calls[i := Recorded(true, at)])
    case Asking(name) => m.(calls := m.calls[i := Waiting(name, Returned(m.calls))])
    case Waiting(name, since) =>
      if m.locked then m
      else if m.loaded then
        m.(calls := m.calls[i := Answered(name, since, m.basis, AnswerIn(m.last, name))])
      else m.(locked := true, calls := m.calls[i := Reading(name, since, |m.log|)])
    case Reading(name, since, seen) =>
      if !works then m.(locked := false, calls := m.calls[i := Failed(name)])
      else
        var last := Latest(FirstOf(m.log, seen));
        m.(loaded := true, basis := seen, last := last, locked := false,
           calls := m.calls[i := Answered(name, since, seen, AnswerIn(last, name))])
    case Recorded(_, _) => m
    case Answered(_, _, _, _) => m
    case Failed(_) => m
  }

  /** Entry k of the log has been appended by a Record that has not yet
      dropped the cache. */
  ghost predicate Pending(m: Shared, k: nat)
  {
    exists i :: 0 <= i < |m.calls| && m.calls[i] == Appended'(k)
  }

  /** Everything past what a reader listed, or past what the cache was built
      from, is pending. */
  ghost predicate PendingFrom(m: Shared, from: nat)
  {
    forall k :: from <= k < |m.log| ==> Pending(m, k)
  }

  ghost predicate CacheInv(m: Shared)
  {
    m.loaded ==> m.basis <= |m.log| && m.last == Latest(m.log[..m.basis]) && PendingFrom(m, m.basis)
  }

  ghost predicate MutexInv(m: Shared)
  {
    && (forall i :: 0 <= i < |m.calls| && m.calls[i].Reading? ==>
          m.locked && !m.loaded && m.calls[i].seen <= |m.log| && PendingFrom(m, m.calls[i].seen))
    && (m.locked ==> exists i :: 0 <= i < |m.calls| && m.calls[i].Reading?)
    && (forall i, j :: 0 <= i < j < |m.calls| && m.calls[i].Reading? ==> !m.calls[j].Reading?)
  }

  /** Which log entry a call of Record wrote; -1 when it wrote none. */
  function EntryOf(call: Call): int
  {
    if call.Appended'? then call.at else if call.Recorded? && call.wrote then call.at else -1
  }

  ghost predicate EntriesInv(m: Shared)
  {
    && (forall i :: 0 <= i < |m.calls| ==> EntryOf(m.calls[i]) < |m.log|)
    && (forall i, j :: 0 <= i < j < |m.calls| && EntryOf(m.calls[i]) >= 0 ==>
          EntryOf(m.calls[i]) != EntryOf(m.calls[j]))
  }

  /** Every answer accounts for all the entries whose Record had returned when
      the question was asked. */
  ghost predicate AnswerInv(m: Shared)
  {
    forall i :: 0 <= i < |m.calls| ==>
      match m.calls[i]
      case Waiting(_, since) => forall k :: k in since ==> k < |m.log| && !Pending(m, k)
      case Reading(_, since, seen) => forall k :: k in since ==> k < seen
      case Answered(name, since, from, answer) =>
        from <= |m.log| && answer == AnswerIn(Latest(m.log[..from]), name) && forall k :: k in since ==> k < from
      case _ => true
  }

  ghost predicate Inv(m: Shared)
  {
    CacheInv(m) && MutexInv(m) && EntriesInv(m) && AnswerInv(m)
  }

  /** A move makes an entry pending only by appending it, and takes it out of
      pending only by dropping the cache. */
  lemma PendingAfter(m: Shared, m': Shared, i: nat, k: nat)
    requires i < |m.calls| && |m'.calls| == |m.calls|
    requires forall j :: 0 <= j < |m.calls| && j != i ==> m'.calls[j] == m.calls[j]
    ensures m.calls[i] != Appended'(k) && Pending(m, k) ==> Pending(m', k)
    ensures m'.calls[i] != Appended'(k) && Pending(m', k) ==> Pending(m, k)
    ensures m'.calls[i] == Appended'(k) ==> Pending(m', k)
  {
    if Pending(m, k) {
      var j :| 0 <= j < |m.calls| && m.calls[j] == Appended'(k);
      assert j != i ==> m'.calls[j] == Appended'(k);
    }
    if Pending(m', k) {
      var j :| 0 <= j < |m'.calls| && m'.calls[j] == Appended'(k);
      assert j != i ==> m.calls[j] == Appended'(k);
    }
  }

  lemma MoveKeepsInv(m: Shared, i: nat, works: bool)
    requires i < |m.calls| && Inv(m)
    ensures Inv(Move(m, i, works))
  {
    var m' := Move(m, i, works);
    hide Latest;
    match m.calls[i] {
      case Recording(e) =>
        if works {
          AppendKeepsInv(m, i, e);
        } else if !m.locked {
          DropKeepsInv(m, i, Recorded(false, 0));
        }
      case Appended'(at) =>
        if !m.locked {
          DropKeepsInv(m, i, Recorded(true, at));
        }
      case Asking(name) => AskKeepsInv(m, i, name);
      case Waiting(name, since) =>
        if !m.locked && m.loaded {
          HitKeepsInv(m, i, name, since);
        } else if !m.locked {
          MissKeepsInv(m, i, name, since);
        }
      case Reading(name, since, seen) => PublishKeepsInv(m, i, name, since, seen, works);
      case _ =>
    }
  }

  lemma AppendKeepsInv(m: Shared, i: nat, e: Entry)
    requires i < |m.calls| && Inv(m) && m.calls[i].Recording?
    ensures Inv(m.(log := m.log + [e], calls := m.calls[i := Appended'(|m.log|)]))
  {
    var m' := m.(log := m.log + [e], calls := m.calls[i := Appended'(|m.log|)]);
    forall k ensures Pending(m', k) <==> Pending(m, k) || k == |m.log| {
      PendingAfter(m, m', i, k);
    }
    hide Latest, Pending;
    assert forall n :: 0 <= n <= |m.log| ==> m'.log[..n] == m.log[..n];
    forall n: nat | n <= |m.log| && PendingFrom(m, n) ensures PendingFrom(m', n) {}
    if m.locked { KeepsReader(m, m', i); }
  }

  lemma DropKeepsInv(m: Shared, i: nat, done: Call)
    requires i < |m.calls| && Inv(m) && !m.locked
    requires done.Recorded?
    requires ((done == Recorded(false, 0) && m.calls[i].Recording?) || (m.calls[i] == Appended'(done.at) && done.wrote))
    ensures Inv(m.(loaded := false, last := map[], calls := m.calls[i := done]))
  {
    var m' := m.(loaded := false, last := map[], calls := m.calls[i := done]);
    forall k ensures Pending(m', k) ==> Pending(m, k) {
      PendingAfter(m, m', i, k);
    }
    hide Latest, Pending;
  }

  lemma AskKeepsInv(m: Shared, i: nat, name: string)
    requires i < |m.calls| && Inv(m) && m.calls[i].Asking?
    ensures Inv(m.(calls := m.calls[i := Waiting(name, Returned(m.calls))]))
  {
    hide Latest, Returned;
    var m' := m.(calls := m.calls[i := Waiting(name, Returned(m.calls))]);
    forall k ensures Pending(m', k) <==> Pending(m, k) {
      PendingAfter(m, m', i, k);
    }
    ReturnedIsDone(m);
    hide Pending;
    if m.locked { KeepsReader(m, m', i); }
  }

  lemma ReturnedIsDone(m: Shared)
    requires EntriesInv(m)
    ensures forall k :: k in Returned(m.calls) ==> k < |m.log| && !Pending(m, k)
  {
    forall k | k in Returned(m.calls) ensures k < |m.log| && !Pending(m, k) {
      var j :| 0 <= j < |m.calls| && m.calls[j].Recorded? && m.calls[j].wrote && m.calls[j].at == k;
      assert EntryOf(m.calls[j]) == k;
    }
  }

  lemma KeepsReader(m: Shared, m': Shared, i: nat)
    requires i < |m.calls| == |m'.calls| && !m.calls[i].Reading?
    requires forall j :: 0 <= j < |m.calls| && j != i ==> m'.calls[j] == m.calls[j]
    requires exists j :: 0 <= j < |m.calls| && m.calls[j].Reading?
    ensures exists j :: 0 <= j < |m'.calls| && m'.calls[j].Reading?
  {
    var j :| 0 <= j < |m.calls| && m.calls[j].Reading?;
    assert m'.calls[j].Reading?;
  }

  lemma HitKeepsInv(m: Shared, i: nat, name: string, since: set<nat>)
    requires i < |m.calls| && Inv(m) && m.calls[i] == Waiting(name, since) && !m.locked && m.loaded
    ensures Inv(m.(calls := m.calls[i := Answered(name, since, m.basis, AnswerIn(m.last, name))]))
  {
    var m' := m.(calls := m.calls[i := Answered(name, since, m.basis, AnswerIn(m.last, name))]);
    forall k ensures Pending(m', k) <==> Pending(m, k) {
      PendingAfter(m, m', i, k);
    }
    hide Latest, Pending;
  }

  lemma MissKeepsInv(m: Shared, i: nat, name: string, since: set<nat>)
    requires i < |m.calls| && Inv(m) && m.calls[i] == Waiting(name, since) && !m.locked && !m.loaded
    ensures Inv(m.(locked := true, calls := m.calls[i := Reading(name, since, |m.log|)]))
  {
    var m' := m.(locked := true, calls := m.calls[i := Reading(name, since, |m.log|)]);
    forall k ensures Pending(m', k) <==> Pending(m, k) {
      PendingAfter(m, m', i, k);
    }
    hide Latest, Pending;
    assert m'.calls[i].Reading?;
  }

  lemma PublishKeepsInv(m: Shared, i: nat, name: string, since: set<nat>, seen: nat, works: bool)
    requires i < |m.calls| && Inv(m) && m.calls[i] == Reading(name, since, seen)
    ensures Inv(Move(m, i, works))
  {
    var m' := Move(m, i, works);
    forall k ensures Pending(m', k) <==> Pending(m, k) {
      PendingAfter(m, m', i, k);
    }
    hide Latest, Pending;
  }

  ghost predicate Started(calls: seq<Call>)
  {
    forall i :: 0 <= i < |calls| ==> calls[i].Recording? || calls[i].Asking?
  }

  datatype Turn = Turn(call: nat, works: bool)

  function Initial(calls: seq<Call>): Shared
  {
    Shared([], false, 0, map[], false, calls)
  }

  lemma StartHasInv(calls: seq<Call>)
    requires Started(calls)
    ensures Inv(Initial(calls))
  {}

  /** The state after any interleaving of any number of calls. */
  ghost function AfterTurns(calls: seq<Call>, turns: seq<Turn>): (m: Shared)
    requires forall k :: 0 <= k < |turns| ==> turns[k].call < |calls|
    ensures |m.calls| == |calls|
  {
    if turns == [] then Initial(calls)
    else
      var last := turns[|turns|-1];
      Move(AfterTurns(calls, turns[..|turns|-1]), last.call, last.works)
  }

  lemma {:induction false} ReachableInv(calls: seq<Call>, turns: seq<Turn>)
    requires Started(calls) && forall k :: 0 <= k < |turns| ==> turns[k].call < |calls|
    ensures Inv(AfterTurns(calls, turns))
  {
    hide Inv, Move, Initial, Started;
    if turns == [] {
      StartHasInv(calls);
    } else {
      var init, last := turns[..|turns|-1], turns[|turns|-1];
      ReachableInv(calls, init);
      MoveKeepsInv(AfterTurns(calls, init), last.call, last.works);
    }
  }

  /** Whenever the cache is loaded and no Record stands between its append and
      its drop, the cache is the index of the whole log. */
  lemma LoadedCacheIsCurrent(calls: seq<Call>, turns: seq<Turn>)
    requires Started(calls) && forall k :: 0 <= k < |turns| ==> turns[k].call < |calls|
    requires AfterTurns(calls, turns).loaded
    requires forall i :: 0 <= i < |calls| ==> !AfterTurns(calls, turns).calls[i].Appended'?
    ensures AfterTurns(calls, turns).last == Latest(AfterTurns(calls, turns).log)
  {
    hide AfterTurns, Latest, MutexInv, EntriesInv, AnswerInv;
    ReachableInv(calls, turns);
    var m := AfterTurns(calls, turns);
    assert !Pending(m, m.basis);
    assert m.log[..|m.log|] == m.log;
  }

  /** A question that had to list the log leaves the cache loaded with all that
      it listed, and while the cache is loaded questions are answered from it. */
  lemma LoadedCacheAnswers(m: Shared, i: nat, works: bool)
    requires i < |m.calls|
    ensures m.calls[i].Reading? && works ==>
              Move(m, i, works).loaded && Move(m, i, works).basis == m.calls[i].seen
    ensures m.calls[i].Waiting? && m.loaded && !m.locked ==>
              Move(m, i, works).calls[i].Answered? && Move(m, i, works).loaded
  {
    hide Latest;
  }

  /** Every answer is exact for the part of the log that had been listed. */
  lemma AnswersAreExact(calls: seq<Call>, turns: seq<Turn>, i: nat)
    requires Started(calls) && forall t :: 0 <= t < |turns| ==> turns[t].call < |calls|
    requires i < |calls| && AfterTurns(calls, turns).calls[i].Answered?
    ensures var m := AfterTurns(calls, turns);
            var call := m.calls[i];
            && call.from <= |m.log|
            && (forall t :: call.answer == LastAt(t) <==>
                  SucceededAt(m.log[..call.from], call.name, t)
                  && forall at :: SucceededAt(m.log[..call.from], call.name, at) ==> at <= t)
            && (call.answer == NoSuccess <==> forall at :: !SucceededAt(m.log[..call.from], call.name, at))
  {
    hide AfterTurns, Latest, SucceededAt;
    ReachableInv(calls, turns);
    var m := AfterTurns(calls, turns);
    forall t ensures m.calls[i].answer == LastAt(t) <==>
      SucceededAt(m.log[..m.calls[i].from], m.calls[i].name, t)
      && forall at :: SucceededAt(m.log[..m.calls[i].from], m.calls[i].name, at) ==> at <= t
    {
      AnswerMeans(m.log[..m.calls[i].from], m.calls[i].name, t);
    }
    AnswerMeans(m.log[..m.calls[i].from], m.calls[i].name, 0);
  }

  /** A question asked after a Record returned never misses that record: the
      answer is at least as recent as every success recorded by then. */
  lemma AnswerNeverMissesAReturnedRecord(calls: seq<Call>, turns: seq<Turn>, i: nat, k: nat)
    requires Started(calls) && forall t :: 0 <= t < |turns| ==> turns[t].call < |calls|
    requires i < |calls| && AfterTurns(calls, turns).calls[i].Answered? && k in AfterTurns(calls, turns).calls[i].since
    ensures var m := AfterTurns(calls, turns);
            && k < |m.log|
            && (m.log[k].success && m.log[k].name == m.calls[i].name ==>
                  m.calls[i].answer.LastAt? && m.calls[i].answer.time >= m.log[k].at)
  {
    hide AfterTurns;
    ReachableInv(calls, turns);
    var m := AfterTurns(calls, turns);
    var from := m.calls[i].from;
    assert m.log[..from][k] == m.log[k];
    if m.log[k].success {
      assert SucceededAt(m.log[..from], m.log[k].name, m.log[k].at);
      LatestIsMaximum(m.log[..from], m.log[k].name);
    }
  }
}
