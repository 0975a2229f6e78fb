/** What begin, statements, commit and restart answer and do, over all reachable states of the transaction system. */
module Commits {
  import opened Prelude
  import opened Journals
  import opened LockManagers
  import opened Transactions
  import opened Protocol

  /** What a call answers. */
  ghost function Answer(e: Engine, s: System, ev: Event): Result<(), TxError> {
    if s.Down? then Err(NotActive)
    else
      match ev
      case Begin(isolation, copied) =>
        var r := BeginTxn(s.m, isolation, copied).1;
        if r.Ok? then Ok(()) else Err(r.error)
      case Run(id, sql) => if id in s.txns then RunTxn(e, s.m, s.txns[id], sql).2 else Err(NotActive)
      case Commit(id, host) => if id in s.txns then CommitTxn(s.m, s.txns[id], host).2 else Err(NotActive)
      case _ => Ok(())
  }

  /** Some statement of the list is planned as a write on the image it is executed on, starting from `image`. */
  ghost predicate Writes(e: Engine, stmts: seq<string>, image: Image) {
    exists k :: 0 <= k < |stmts| && PlannedWrite(e, stmts, image, k)
  }

  ghost predicate PlannedWrite(e: Engine, stmts: seq<string>, image: Image, k: nat)
    requires k < |stmts|
  {
    var seen := RunAll(e, stmts[..k], image);
    seen.Some? && e.plan(stmts[k], seen.value) == Some(true)
  }

  /** The transaction has executed a write on its base version. */
  ghost predicate Wrote(e: Engine, s: System, id: TransactionId)
    requires s.Up? && id in s.txns && id in s.traces && s.txns[id].baseVersion < |s.hist|
  {
    Writes(e, s.traces[id], s.hist[s.txns[id].baseVersion].image)
  }

  /** The dirty mark of a live transaction says whether it has written. */
  ghost predicate MarksOk(e: Engine, s: System)
    requires Inv(e, s)
  {
    s.Up? ==> forall id | Active(s, id) :: id in s.traces && s.txns[id].baseVersion < |s.hist|
                                           && (s.txns[id].dirty <==> Wrote(e, s, id))
  }

  lemma WritesMore(e: Engine, stmts: seq<string>, sql: string, image: Image)
    ensures Writes(e, stmts + [sql], image) <==>
            || Writes(e, stmts, image)
            || (RunAll(e, stmts, image).Some? && e.plan(sql, RunAll(e, stmts, image).value) == Some(true))
  {
    hide RunAll;
    var more, n := stmts + [sql], |stmts|;
    assert more[..n] == stmts && more[n] == sql;
    assert forall k | 0 <= k < n :: more[..k] == stmts[..k] && more[k] == stmts[k];
    if Writes(e, stmts, image) {
      var k :| 0 <= k < n && PlannedWrite(e, stmts, image, k);
      assert PlannedWrite(e, more, image, k);
    }
    if Writes(e, more, image) {
      var k :| 0 <= k < |more| && PlannedWrite(e, more, image, k);
      if k < n { assert PlannedWrite(e, stmts, image, k); }
    }
    if RunAll(e, stmts, image).Some? && e.plan(sql, RunAll(e, stmts, image).value) == Some(true) {
      assert PlannedWrite(e, more, image, n);
    }
  }

  lemma NoWrites(e: Engine, image: Image)
    ensures !Writes(e, [], image)
  {
  }

  lemma Known(e: Engine, s: System, id: TransactionId)
    requires Inv(e, s) && s.Up? && Active(s, id)
    ensures id in s.traces && s.txns[id].baseVersion < |s.hist|
    ensures RunAll(e, s.traces[id], s.hist[s.txns[id].baseVersion].image) == s.txns[id].database
  {
    hide RunAll, History, JournalOk;
    assert SnapshotOk(e, s, id);
  }

  // ---- every step keeps the marks right -----------------------------------------------------------

  /** A transaction an event does not end or touch keeps its mark, its statements and its base version. */
  lemma Untouched(e: Engine, s: System, s': System, id: TransactionId)
    requires Inv(e, s) && Inv(e, s') && MarksOk(e, s) && s.Up? && s'.Up? && Active(s, id)
    requires id in s'.txns && s'.txns[id] == s.txns[id] && id in s'.traces && s'.traces[id] == s.traces[id]
    requires s.hist <= s'.hist
    ensures s'.txns[id].baseVersion < |s'.hist| && (s'.txns[id].dirty <==> Wrote(e, s', id))
  {
    hide Inv, Writes;
    assert id in s.traces && s.txns[id].baseVersion < |s.hist| && (s.txns[id].dirty <==> Wrote(e, s, id));
  }

  lemma RunMarks(e: Engine, s: System, id: TransactionId, sql: string)
    requires Inv(e, s) && MarksOk(e, s) && Inv(e, Step(e, s, Run(id, sql)))
    ensures MarksOk(e, Step(e, s, Run(id, sql)))
  {
    if s.Up? && id in s.txns {
      var s' := Step(e, s, Run(id, sql));
      if Active(s, id) {
        Known(e, s, id);
        WritesMore(e, s.traces[id], sql, s.hist[s.txns[id].baseVersion].image);
      }
      RunEffect(e, s, id, sql);
      hide Inv, RunAll, Writes, RunTxn, Step;
      forall x | Active(s', x)
        ensures x in s'.traces && s'.txns[x].baseVersion < |s'.hist| && (s'.txns[x].dirty <==> Wrote(e, s', x))
      {
        if x != id { Untouched(e, s, s', x); }
      }
    }
  }

  /** What a statement does to the system. */
  lemma RunEffect(e: Engine, s: System, id: TransactionId, sql: string)
    requires s.Up? && id in s.txns
    ensures var s', t := Step(e, s, Run(id, sql)), s.txns[id];
            && s'.Up? && s'.hist == s.hist && s'.txns.Keys == s.txns.Keys && s'.traces.Keys == s.traces.Keys
            && (forall x | x in s.txns && x != id :: s'.txns[x] == s.txns[x])
            && (forall x | x in s.traces && x != id :: s'.traces[x] == s.traces[x])
            && (Answer(e, s, Run(id, sql)).Err? ==> !Active(s', id))
            && (Answer(e, s, Run(id, sql)).Ok? ==>
                  && Active(s, id) && s'.txns[id].baseVersion == t.baseVersion
                  && (id in s.traces ==> s'.traces[id] == s.traces[id] + [sql])
                  && (s'.txns[id].dirty <==> t.dirty || e.plan(sql, t.database.value) == Some(true)))
  {
  }

  /** Begin starts one transaction that has executed nothing, or none. */
  lemma BeginMarks(e: Engine, s: System, isolation: Isolation, copied: bool)
    requires Inv(e, s) && MarksOk(e, s) && Inv(e, Step(e, s, Begin(isolation, copied)))
    ensures MarksOk(e, Step(e, s, Begin(isolation, copied)))
  {
    if s.Up? {
      var s' := Step(e, s, Begin(isolation, copied));
      var r := BeginTxn(s.m, isolation, copied).1;
      NoWrites(e, s.m.database);
      assert r.Ok? ==> r.value.id !in s.txns;
      assert |s.hist| == s.m.version + 1 && s.m.database == s.hist[s.m.version].image;
      hide Inv, RunAll, Writes;
      forall x | Active(s', x)
        ensures x in s'.traces && s'.txns[x].baseVersion < |s'.hist| && (s'.txns[x].dirty <==> Wrote(e, s', x))
      {
        if x in s.txns { Untouched(e, s, s', x); }
      }
    }
  }

  /** Commit and abort end a transaction and touch no other. */
  lemma EndMarks(e: Engine, s: System, s': System, id: TransactionId)
    requires Inv(e, s) && Inv(e, s') && MarksOk(e, s) && s.Up? && s'.Up? && s.hist <= s'.hist
    requires s'.traces == s.traces && id in s'.txns && s'.txns == s.txns[id := s'.txns[id]] && !Active(s', id)
    ensures MarksOk(e, s')
  {
    hide Inv, RunAll, Writes;
    forall x | Active(s', x)
      ensures x in s'.traces && s'.txns[x].baseVersion < |s'.hist| && (s'.txns[x].dirty <==> Wrote(e, s', x))
    {
      assert Active(s, x) && x in s.traces;
      Untouched(e, s, s', x);
    }
  }

  lemma CommitMarks(e: Engine, s: System, id: TransactionId, host: Host)
    requires Inv(e, s) && MarksOk(e, s) && Inv(e, Step(e, s, Commit(id, host)))
    ensures MarksOk(e, Step(e, s, Commit(id, host)))
  {
    if s.Up? && id in s.txns && id in s.traces {
      HistoryGrows(e, s, Commit(id, host));
      CommitEnded(e, s, id, host);
      EndMarks(e, s, Step(e, s, Commit(id, host)), id);
    }
  }

  lemma CommitEnded(e: Engine, s: System, id: TransactionId, host: Host)
    requires s.Up? && id in s.txns && id in s.traces
    ensures var s' := Step(e, s, Commit(id, host));
            && s'.Up? && s'.traces == s.traces && id in s'.txns && s'.txns == s.txns[id := s'.txns[id]]
            && !Active(s', id)
  {
    hide AppendTo, TakeExclusive;
  }

  lemma AbortMarks(e: Engine, s: System, id: TransactionId)
    requires Inv(e, s) && MarksOk(e, s) && Inv(e, Step(e, s, Abort(id)))
    ensures MarksOk(e, Step(e, s, Abort(id)))
  {
    if s.Up? && id in s.txns {
      AbortEnded(e, s, id);
      EndMarks(e, s, Step(e, s, Abort(id)), id);
    }
  }

  lemma AbortEnded(e: Engine, s: System, id: TransactionId)
    requires s.Up? && id in s.txns
    ensures var s' := Step(e, s, Abort(id));
            && s'.Up? && s'.traces == s.traces && s'.hist == s.hist && id in s'.txns
            && s'.txns == s.txns[id := s'.txns[id]] && !Active(s', id)
  {
  }

  lemma StepMarks(e: Engine, s: System, ev: Event)
    requires Inv(e, s) && MarksOk(e, s)
    ensures Inv(e, Step(e, s, ev)) && MarksOk(e, Step(e, s, ev))
  {
    StepKeeps(e, s, ev);
    hide Inv, MarksOk, Step;
    match ev
    case Begin(isolation, copied) => BeginMarks(e, s, isolation, copied);
    case Run(id, sql) => RunMarks(e, s, id, sql);
    case Commit(id, host) => CommitMarks(e, s, id, host);
    case Abort(id) => AbortMarks(e, s, id);
    case Crash(keep) => CrashMarks(e, s, keep);
    case Boot(image, host) => BootMarks(e, s, image, host);
  }

  lemma CrashMarks(e: Engine, s: System, keep: nat)
    requires Inv(e, s) && MarksOk(e, s) && Inv(e, Step(e, s, Crash(keep)))
    ensures MarksOk(e, Step(e, s, Crash(keep)))
  {
  }

  lemma BootMarks(e: Engine, s: System, image: Image, host: Host)
    requires Inv(e, s) && MarksOk(e, s) && Inv(e, Step(e, s, Boot(image, host)))
    ensures MarksOk(e, Step(e, s, Boot(image, host)))
  {
  }

  lemma {:induction false} RunsMark(e: Engine, s: System, evs: seq<Event>)
    requires Inv(e, s) && MarksOk(e, s)
    ensures Inv(e, Exec(e, s, evs)) && MarksOk(e, Exec(e, s, evs))
  {
    hide Inv, MarksOk, Step;
    if evs != [] {
      RunsMark(e, s, evs[..|evs| - 1]);
      StepMarks(e, Exec(e, s, evs[..|evs| - 1]), evs[|evs| - 1]);
    }
  }

  lemma ReachableMarks(e: Engine, s: System)
    requires Reachable(e, s)
    ensures Inv(e, s) && MarksOk(e, s)
  {
    var evs: seq<Event>, image: Image, durable: bool :| s == Exec(e, StartOf(image, durable), evs);
    StartsOk(e, image);
    RunsMark(e, StartOf(image, durable), evs);
  }

  // ---- what is answered, and what comes of it -------------------------------------------------------

  /** Somebody else holds a lock. */
  ghost predicate OthersHold(s: System, id: TransactionId)
    requires s.Up?
  {
    exists x :: x != id && Holds(s, x)
  }

  /** Where locking matters: a live transaction gets the exclusive lock exactly when nobody else holds one. */
  lemma ExclusiveExact(e: Engine, s: System, id: TransactionId)
    requires Inv(e, s) && s.Up?
    ensures TakeExclusive(s.m.locks, id).1 <==> !OthersHold(s, id)
  {
    Exclusion(s.m.locks, id);
    assert forall x | x in s.m.locks.readers :: Holds(s, x);
    if s.m.locks.writer.Some? { assert Holds(s, s.m.locks.writer.value); }
  }

  /**
   A commit is answered Ok exactly when the journal is usable and, if the transaction has written, its base version is
   current, nobody else holds a lock, there is a next version, and a journal is written in full.
   */
  lemma CommitExact(e: Engine, s: System, id: TransactionId, host: Host)
    requires Reachable(e, s) && s.Up? && Active(s, id)
    ensures id in s.traces && s.txns[id].baseVersion < |s.hist|
    ensures Answer(e, s, Commit(id, host)).Ok? <==>
            && (s.m.journal.Some? ==> !s.m.journal.value.failed)
            && (Wrote(e, s, id) ==>
                  && s.txns[id].baseVersion == s.m.version && !OthersHold(s, id) && s.m.version + 1 < U64
                  && (s.m.journal.Some? ==> host.imaged && host.io == Written))
  {
    ReachableMarks(e, s);
    ExclusiveExact(e, s, id);
    hide Inv, RunAll, Wrote, TakeExclusive, OthersHold, Record;
  }

  /**
   A commit that is answered Ok publishes exactly one version if the transaction has written: the image its statements
   make of its base version, acknowledged and, with a journal, appended to it as one record. If it has written nothing,
   or the answer is another one, nothing is published. Either way the transaction is over and holds no lock.
   */
  lemma CommitPublishes(e: Engine, s: System, id: TransactionId, host: Host)
    requires Reachable(e, s) && s.Up? && Active(s, id)
    ensures id in s.traces && s.txns[id].baseVersion < |s.hist|
    ensures var s', stmts := Step(e, s, Commit(id, host)), s.traces[id];
            var image := RunAll(e, stmts, s.hist[s.txns[id].baseVersion].image);
            && s'.Up? && image.Some? && !Active(s', id) && !Holds(s', id)
            && (Answer(e, s, Commit(id, host)).Ok? && Wrote(e, s, id) ==>
                  && s'.hist == s.hist + [Version(image.value, stmts)]
                  && s'.m.database == image.value && s'.m.version == s.m.version + 1
                  && (s.m.journal.Some? ==>
                        && s'.m.journal.Some?
                        && s'.m.journal.value.file == s.m.journal.value.file + Record(s.m.version + 1, image.value)))
            && (Answer(e, s, Commit(id, host)).Err? || !Wrote(e, s, id) ==>
                  s'.hist == s.hist && s'.m.database == s.m.database && s'.m.version == s.m.version)
            && (Answer(e, s, Commit(id, host)).Ok? && !Wrote(e, s, id) ==> s'.m.journal == s.m.journal)
  {
    ReachableMarks(e, s);
    Known(e, s, id);
    CommitEnded(e, s, id, host);
    NothingHeld(e, s, id, host);
    hide Inv, RunAll, Wrote, TakeExclusive, Record;
  }

  lemma NothingHeld(e: Engine, s: System, id: TransactionId, host: Host)
    requires Inv(e, s) && s.Up? && Active(s, id)
    ensures !Holds(Step(e, s, Commit(id, host)), id)
  {
    CommitKeeps(e, s, id, host);
    assert SnapshotOk(e, s, id);
    CommitEnded(e, s, id, host);
    hide RunAll, Step;
  }

  /** Every write that was ever acknowledged stays in the history, whatever happens afterwards. */
  lemma AcknowledgedKept(e: Engine, image: Image, durable: bool, evs: seq<Event>, i: nat)
    requires i < |evs| && evs[i].Commit?
    requires var s, id := Exec(e, StartOf(image, durable), evs[..i]), evs[i].id;
             && s.Up? && Active(s, id) && Answer(e, s, evs[i]).Ok?
             && id in s.traces && s.txns[id].baseVersion < |s.hist| && Wrote(e, s, id)
    ensures var s := Exec(e, StartOf(image, durable), evs[..i]);
            var stmts, n := s.traces[evs[i].id], |s.hist|;
            var last := Exec(e, StartOf(image, durable), evs);
            && n < |last.hist| && last.hist[n].stmts == stmts
            && RunAll(e, stmts, s.hist[s.txns[evs[i].id].baseVersion].image) == Some(last.hist[n].image)
  {
    var start := StartOf(image, durable);
    var s := Exec(e, start, evs[..i]);
    StartsOk(e, image);
    assert Reachable(e, s);
    CommitPublishes(e, s, evs[i].id, evs[i].host);
    hide Inv, Step, Wrote, RunAll;
    assert evs[..i + 1][..i] == evs[..i] && evs[..i + 1][i] == evs[i] && evs[..|evs|] == evs;
    ExecLast(e, start, evs[..i + 1]);
    RunGrows(e, start, evs, i + 1, |evs|);
  }

  /**
   A statement is answered Ok exactly when its transaction is live, it can be planned and executed on the image the
   transaction sees, and, if it is the first write of a serializable one, nobody else holds a lock. Then it joins the
   statements executed; else the transaction is over and holds no lock. Nothing is published.
   */
  lemma RunExact(e: Engine, s: System, id: TransactionId, sql: string)
    requires Reachable(e, s) && s.Up? && id in s.txns
    ensures id in s.traces && (Active(s, id) ==> s.txns[id].baseVersion < |s.hist|)
    ensures Answer(e, s, Run(id, sql)).Ok? <==>
            && Active(s, id)
            && var seen := RunAll(e, s.traces[id], s.hist[s.txns[id].baseVersion].image);
               && seen.Some? && e.plan(sql, seen.value).Some? && e.exec(sql, seen.value).Some?
               && (e.plan(sql, seen.value).value && !Wrote(e, s, id) && s.txns[id].isolation == Serializable ==>
                     !OthersHold(s, id))
    ensures var s' := Step(e, s, Run(id, sql));
            && s'.Up? && s'.hist == s.hist && s'.m.database == s.m.database && s'.m.version == s.m.version
            && s'.m.journal == s.m.journal
            && if Answer(e, s, Run(id, sql)).Ok? then Active(s', id) && s'.traces[id] == s.traces[id] + [sql]
               else !Active(s', id) && !Holds(s', id)
  {
    ReachableMarks(e, s);
    ExclusiveExact(e, s, id);
    RunKeeps(e, s, id, sql);
    RunEffect(e, s, id, sql);
    assert id in s.traces;
    if Active(s, id) { Known(e, s, id); }
    var s' := Step(e, s, Run(id, sql));
    assert !Active(s', id) ==> !Holds(s', id);
    hide Inv, RunAll, Wrote, TakeExclusive, OthersHold;
  }

  /**
   A transaction can be begun exactly when the journal is usable, ids are left, no serializable one would have to read
   beside a writer, and the image can be copied. It is a new one, on the current version, that has executed nothing.
   */
  lemma BeginExact(e: Engine, s: System, isolation: Isolation, copied: bool)
    requires Reachable(e, s) && s.Up?
    ensures Answer(e, s, Begin(isolation, copied)).Ok? <==>
            && (s.m.journal.Some? ==> !s.m.journal.value.failed) && s.m.nextId + 1 < U64 && copied
            && (isolation == Serializable ==> s.m.locks.writer == None)
    ensures var s' := Step(e, s, Begin(isolation, copied));
            && s'.Up? && s'.hist == s.hist && s'.m.database == s.m.database && s'.m.version == s.m.version
            && if Answer(e, s, Begin(isolation, copied)).Ok? then
                 && s.m.nextId !in s.txns && s'.txns.Keys == s.txns.Keys + {s.m.nextId} && Active(s', s.m.nextId)
                 && var t := s'.txns[s.m.nextId];
                    && t.isolation == isolation && t.baseVersion == s.m.version && t.database == Some(s.m.database)
                    && s'.traces == s.traces[s.m.nextId := []]
                    && forall x | x in s.txns :: s'.txns[x] == s.txns[x]
               else s'.txns == s.txns && s'.traces == s.traces && s'.m.locks == s.m.locks
  {
    ReachableMarks(e, s);
    BeginLocks(e, s, isolation);
    hide RunAll, History, JournalOk, MarksOk;
  }

  lemma BeginLocks(e: Engine, s: System, isolation: Isolation)
    requires Inv(e, s) && s.Up?
    ensures TakeShared(s.m.locks, s.m.nextId).1 <==> s.m.locks.writer == None
    ensures Drop(TakeShared(s.m.locks, s.m.nextId).0, s.m.nextId) == s.m.locks
    ensures Drop(s.m.locks, s.m.nextId) == s.m.locks
    ensures s.m.nextId !in s.txns
  {
    hide RunAll, History, JournalOk;
    Exclusion(s.m.locks, s.m.nextId);
    assert !Holds(s, s.m.nextId);
  }

  /**
   Starting over an empty file succeeds exactly when the image can be had and is written in full; it is then version 0
   and the one record of the journal. Over a file that is not empty, see `Durability`.
   */
  lemma FirstBoot(e: Engine, image: Image, host: Host)
    ensures var s := Step(e, FRESH, Boot(image, host));
            && (s.Up? <==> host.imaged && host.io == Written)
            && (s.Up? ==> s.hist == [Version(image, [])] && s.m == Manager(image, NO_LOCKS, 1, 0,
                                                                           Some(JournalState(Record(0, image), false))))
  {
    hide Record;
    RecoverEmpty();
    assert [] + Record(0, image) == Record(0, image);
  }
}
