/**
 Whole runs of the transaction system: any interleaving of begin, statement, commit and abort steps of any
 number of transactions, failed journal writes, crashes at any byte of an append, and reopening.
 Each step is one of the mutex-protected operations of `Transactions`.
 */
module Protocol {
  import opened Prelude
  import opened Journals
  import opened LockManagers
  import opened Transactions

  /** A published (or, after a failed append, possibly published) database version. */
  datatype Version = Version(image: Image, stmts: seq<string>)

  /**
   `hist` lists the acknowledged versions from 0; `pending` is the version whose append failed, if any;
   `traces` records the statements each transaction has executed.
   */
  datatype System =
    | Up(m: Manager, txns: map<TransactionId, Txn>, traces: map<TransactionId, seq<string>>,
         hist: seq<Version>, pending: Option<Version>)
    | Down(file: Bytes, hist: seq<Version>, pending: Option<Version>)

  datatype Event =
    | Begin(isolation: Isolation, copied: bool)
    | Run(id: TransactionId, sql: string)
    | Commit(id: TransactionId, host: Host)
    | Abort(id: TransactionId)
    | Crash(keep: nat)
    | Boot(image: Image, bootHost: Host)

  /** Executing statements in order; a failing one yields nothing. */
  ghost function RunAll(e: Engine, stmts: seq<string>, image: Image): Option<Image> {
    if stmts == [] then Some(image)
    else match RunAll(e, stmts[..|stmts| - 1], image)
      case None => None
      case Some(i) => e.exec(stmts[|stmts| - 1], i)
  }

  ghost function Images(hist: seq<Version>): seq<Bytes> { seq(|hist|, i requires 0 <= i < |hist| => hist[i].image) }

  /** A crash keeps what was synced and any part of an unfinished append behind it. */
  ghost function AfterCrash(file: Bytes, synced: nat, keep: nat): Bytes {
    if synced + keep <= |file| then file[..synced + keep] else file
  }

  ghost function Step(e: Engine, s: System, ev: Event): System {
    match ev
    case Begin(isolation, copied) =>
      if s.Down? then s else
        var (m, r) := BeginTxn(s.m, isolation, copied);
        if r.Err? then s.(m := m)
        else s.(m := m, txns := s.txns[r.value.id := r.value], traces := s.traces[r.value.id := []])
    case Run(id, sql) =>
      if s.Down? || id !in s.txns then s else
        var (m, t, r) := RunTxn(e, s.m, s.txns[id], sql);
        s.(m := m, txns := s.txns[id := t],
           traces := if r.Ok? && id in s.traces then s.traces[id := s.traces[id] + [sql]] else s.traces)
    case Abort(id) =>
      if s.Down? || id !in s.txns then s else
        var (m, t) := AbortTxn(s.m, s.txns[id]);
        s.(m := m, txns := s.txns[id := t])
    case Commit(id, host) =>
      if s.Down? || id !in s.txns || id !in s.traces then s else CommitStep(s, id, host)
    case Crash(keep) =>
      if s.Down? || s.m.journal.None? then s
      else Down(AfterCrash(s.m.journal.value.file, |Records(Images(s.hist), 0)|, keep), s.hist, s.pending)
    case Boot(image, host) =>
      if s.Up? then s else BootStep(s, image, host)
  }

  ghost function CommitStep(s: System, id: TransactionId, host: Host): System
    requires s.Up? && id in s.txns && id in s.traces
  {
    var t := s.txns[id];
    var (m, t1, r) := CommitTxn(s.m, t, host);
    var txns := s.txns[id := t1];
    if r.Ok? && t.dirty && t.database.Some? then
      Up(m, txns, s.traces, s.hist + [Version(t.database.value, s.traces[id])], s.pending)
    else if r == Err(AppendFailed) && t.database.Some? then
      Up(m, txns, s.traces, s.hist, Some(Version(t.database.value, s.traces[id])))
    else Up(m, txns, s.traces, s.hist, s.pending)
  }

  /** Starting again: a complete unacknowledged record at the tail turns out to have been committed. */
  ghost function BootStep(s: System, image: Image, host: Host): System
    requires s.Down?
  {
    var (file, started) := BootState(s.file, image, host);
    match started
    case None => Down(file, s.hist, if s.file == [] then Some(Version(image, [])) else s.pending)
    case Some(m) =>
      var hist := if s.file == [] then [Version(image, [])]
                  else if m.version == |s.hist| && s.pending.Some? then s.hist + [s.pending.value]
                  else s.hist;
      Up(m, map[], map[], hist, None)
  }

  ghost function Exec(e: Engine, s: System, evs: seq<Event>): System {
    if evs == [] then s else Step(e, Exec(e, s, evs[..|evs| - 1]), evs[|evs| - 1])
  }

  /** Nothing has been written yet. */
  const FRESH: System := Down([], [], None)

  /** A manager without a journal. */
  ghost function TempSystem(image: Image): System {
    Up(Manager(image, NO_LOCKS, 1, 0, None), map[], map[], [Version(image, [])], None)
  }

  // ---- invariants -----------------------------------------------------------------------------

  /** Version v + 1 is the statements of one transaction executed on version v. */
  ghost predicate Serial(e: Engine, hist: seq<Version>) {
    forall v | 0 < v < |hist| :: RunAll(e, hist[v].stmts, hist[v - 1].image) == Some(hist[v].image)
  }

  ghost predicate NextVersion(e: Engine, hist: seq<Version>, p: Version) {
    |hist| < U64 && (hist != [] ==> RunAll(e, p.stmts, hist[|hist| - 1].image) == Some(p.image))
  }

  /** The file holds the records of the acknowledged versions, then at most part or all of the pending one. */
  ghost predicate Durable(file: Bytes, hist: seq<Version>, pending: Option<Version>) {
    && |hist| <= U64 && (pending.Some? ==> |hist| < U64)
    && Records(Images(hist), 0) <= file
    && var tail := file[|Records(Images(hist), 0)|..];
    && (pending.None? ==> tail == [])
    && (pending.Some? ==> tail <= Record(|hist|, pending.value.image))
  }

  ghost predicate History(e: Engine, hist: seq<Version>, pending: Option<Version>) {
    Serial(e, hist) && (pending.Some? ==> NextVersion(e, hist, pending.value))
  }

  ghost predicate JournalOk(s: System)
    requires s.Up?
  {
    && (s.m.journal.Some? ==> Durable(s.m.journal.value.file, s.hist, s.pending))
    && (s.pending.Some? ==> s.m.journal.Some? && s.m.journal.value.failed)
  }

  ghost predicate Published(s: System)
    requires s.Up?
  {
    && |s.hist| == s.m.version + 1 && s.m.version < U64
    && s.m.database == s.hist[s.m.version].image
  }

  ghost predicate Active(s: System, id: TransactionId)
    requires s.Up?
  {
    id in s.txns && s.txns[id].database.Some?
  }

  ghost predicate Holds(s: System, id: TransactionId)
    requires s.Up?
  {
    id in s.m.locks.readers || s.m.locks.writer == Some(id)
  }

  /** Locks: one writer excludes all others, and only live serializable transactions hold any. */
  ghost predicate LocksOk(s: System)
    requires s.Up?
  {
    && WriterAlone(s.m.locks)
    && (forall id | Holds(s, id) :: Active(s, id) && s.txns[id].isolation == Serializable)
  }

  /** A live serializable transaction has its read lock and sees the current version; once dirty it is the writer. */
  ghost predicate SerializableOk(s: System, id: TransactionId)
    requires s.Up? && id in s.txns
  {
    var t := s.txns[id];
    t.database.Some? && t.isolation == Serializable ==>
      && id in s.m.locks.readers
      && t.baseVersion == s.m.version
      && (t.dirty ==> s.m.locks.writer == Some(id))
  }

  /** A live transaction's database is its own statements executed on the version it started from. */
  ghost predicate SnapshotOk(e: Engine, s: System, id: TransactionId)
    requires s.Up? && id in s.txns && id in s.traces
  {
    var t := s.txns[id];
    t.database.Some? ==>
      t.baseVersion < |s.hist| && RunAll(e, s.traces[id], s.hist[t.baseVersion].image) == t.database
  }

  ghost predicate TxnsOk(e: Engine, s: System)
    requires s.Up?
  {
    && s.txns.Keys == s.traces.Keys
    && (forall id | id in s.txns ::
          s.txns[id].id == id && id < s.m.nextId && SerializableOk(s, id) && SnapshotOk(e, s, id))
  }

  ghost predicate Inv(e: Engine, s: System) {
    && History(e, s.hist, s.pending)
    && match s
       case Down(file, hist, pending) => Durable(file, hist, pending)
       case Up(_, _, _, _, _) => JournalOk(s) && Published(s) && LocksOk(s) && TxnsOk(e, s)
  }

  // ---- every step keeps the invariant ---------------------------------------------------------

  lemma BeginKeeps(e: Engine, s: System, isolation: Isolation, copied: bool)
    requires Inv(e, s)
    ensures Inv(e, Step(e, s, Begin(isolation, copied)))
  {
    if s.Up? {
      if BeginTxn(s.m, isolation, copied).1.Ok? {
        BeginStarts(e, s, isolation, copied);
      } else {
        BeginFails(e, s, isolation, copied);
      }
    }
  }

  lemma BeginStarts(e: Engine, s: System, isolation: Isolation, copied: bool)
    requires Inv(e, s) && s.Up? && BeginTxn(s.m, isolation, copied).1.Ok?
    ensures Inv(e, Step(e, s, Begin(isolation, copied)))
  {
    hide Durable, Records, RunAll, History;
    var s' := Step(e, s, Begin(isolation, copied));
    var n := BeginTxn(s.m, isolation, copied).1.value.id;
    assert n !in s.txns && !Holds(s, n);
    assert RunAll(e, [], s.m.database) == Some(s.m.database) by { EmptyRun(e, s.m.database); }
    forall id | Holds(s', id) ensures Active(s', id) && s'.txns[id].isolation == Serializable {
      if id != n { assert Holds(s, id); }
    }
    forall id | id in s'.txns
      ensures s'.txns[id].id == id && id < s'.m.nextId && SerializableOk(s', id) && SnapshotOk(e, s', id)
    {}
  }

  lemma BeginFails(e: Engine, s: System, isolation: Isolation, copied: bool)
    requires Inv(e, s) && s.Up? && BeginTxn(s.m, isolation, copied).1.Err?
    ensures Inv(e, Step(e, s, Begin(isolation, copied)))
  {
    hide Durable, Records, RunAll, History;
    var s' := Step(e, s, Begin(isolation, copied));
    forall id | Holds(s', id) ensures Active(s', id) && s'.txns[id].isolation == Serializable {
      assert Holds(s, id);
    }
    forall id | id in s'.txns
      ensures s'.txns[id].id == id && id < s'.m.nextId && SerializableOk(s', id) && SnapshotOk(e, s', id)
    {
      assert id in s.txns && SerializableOk(s, id) && SnapshotOk(e, s, id);
    }
  }

  lemma EmptyRun(e: Engine, image: Image)
    ensures RunAll(e, [], image) == Some(image)
  {}

  lemma RunOneMore(e: Engine, stmts: seq<string>, sql: string, image: Image)
    ensures RunAll(e, stmts + [sql], image) ==
            match RunAll(e, stmts, image) case None => None case Some(i) => e.exec(sql, i)
  {
    assert (stmts + [sql])[..|stmts|] == stmts;
  }

  /** Dropping the locks of a transaction that ends leaves everybody else as they were. */
  lemma EndKeeps(e: Engine, s: System, s': System, id: TransactionId)
    requires s.Up? && LocksOk(s) && TxnsOk(e, s) && Published(s) && id in s.txns
    requires s'.Up? && s'.m.locks == Drop(s.m.locks, id) && s'.m.version == s.m.version
    requires s'.m.nextId == s.m.nextId && s'.hist == s.hist
    requires id in s'.txns && s'.txns == s.txns[id := s'.txns[id]] && s'.traces == s.traces
    requires s'.txns[id].database == None && s'.txns[id].id == id
    ensures LocksOk(s') && TxnsOk(e, s')
  {
    hide RunAll;
    forall x | Holds(s', x) ensures Active(s', x) && s'.txns[x].isolation == Serializable {
      assert Holds(s, x);
    }
    forall x | x in s'.txns
      ensures s'.txns[x].id == x && x < s'.m.nextId && SerializableOk(s', x) && SnapshotOk(e, s', x)
    {
      assert SnapshotOk(e, s, x) && SerializableOk(s, x);
    }
  }

  lemma AbortKeeps(e: Engine, s: System, id: TransactionId)
    requires Inv(e, s)
    ensures Inv(e, Step(e, s, Abort(id)))
  {
    if s.Up? && id in s.txns {
      var s' := Step(e, s, Abort(id));
      hide Durable, Records, RunAll, History;
      if s.txns[id].database.Some? {
        EndKeeps(e, s, s', id);
      } else {
        assert s' == s;
      }
    }
  }

  /** A statement changes the lock table only by this transaction's own upgrade, or it fails and ends it. */
  lemma RunKeeps(e: Engine, s: System, id: TransactionId, sql: string)
    requires Inv(e, s)
    ensures Inv(e, Step(e, s, Run(id, sql)))
  {
    if s.Up? && id in s.txns {
      var s' := Step(e, s, Run(id, sql));
      hide Durable, Records, RunAll, History;
      var t := s.txns[id];
      var (m1, t1, r) := RunActive(e, s.m, t, sql);
      if r.Ok? {
        RunSucceeds(e, s, id, sql);
      } else if t.database.None? {
        assert s'.txns == s.txns && s' == s;
      } else {
        assert Drop(m1.locks, id) == Drop(s.m.locks, id);
        EndKeeps(e, s, s', id);
      }
    }
  }

  lemma RunSucceeds(e: Engine, s: System, id: TransactionId, sql: string)
    requires Inv(e, s) && s.Up? && id in s.txns && RunActive(e, s.m, s.txns[id], sql).2.Ok?
    ensures Inv(e, Step(e, s, Run(id, sql)))
  {
    var s' := Step(e, s, Run(id, sql));
    hide Durable, Records, RunAll, History;
    var t := s.txns[id];
    Exclusion(s.m.locks, id);
    RunOneMore(e, s.traces[id], sql, s.hist[t.baseVersion].image);
    forall x | Holds(s', x) ensures Active(s', x) && s'.txns[x].isolation == Serializable {
      if x != id { assert Holds(s, x); }
    }
    forall x | x in s'.txns
      ensures s'.txns[x].id == x && x < s'.m.nextId && SerializableOk(s', x) && SnapshotOk(e, s', x)
    {
      assert SnapshotOk(e, s, x) && SerializableOk(s, x);
    }
  }

  lemma ImagesAppend(hist: seq<Version>, v: Version)
    ensures Images(hist + [v]) == Images(hist) + [v.image]
    ensures Records(Images(hist + [v]), 0) == Records(Images(hist), 0) + Record(|hist|, v.image)
  {
    assert Images(hist + [v]) == Images(hist) + [v.image];
    RecordsAppend(Images(hist), 0, v.image);
  }

  lemma SerialGrows(e: Engine, hist: seq<Version>, v: Version)
    requires Serial(e, hist) && NextVersion(e, hist, v)
    ensures Serial(e, hist + [v])
  {
    hide RunAll;
    var h := hist + [v];
    forall i | 0 < i < |h| ensures RunAll(e, h[i].stmts, h[i - 1].image) == Some(h[i].image) {
      if i < |hist| { assert h[i] == hist[i] && h[i - 1] == hist[i - 1]; }
    }
  }

  /** Writing the next record to a file of whole records: durably, or partly. */
  lemma AppendDurable(e: Engine, j: JournalState, hist: seq<Version>, v: Version, io: Io)
    requires Durable(j.file, hist, None) && !j.failed && |hist| < U64
    ensures var (j1, ok) := AppendTo(j, |hist|, v.image, io);
            && (ok ==> !j1.failed && Durable(j1.file, hist + [v], None))
            && (!ok ==> j1.failed && Durable(j1.file, hist, Some(v)))
  {
    hide Record, Records;
    ImagesAppend(hist, v);
    var r := Records(Images(hist), 0);
    assert j.file == r;
    var w := Landed(Record(|hist|, v.image), io);
    assert (r + w)[|r|..] == w;
  }

  lemma CommitKeeps(e: Engine, s: System, id: TransactionId, host: Host)
    requires Inv(e, s)
    ensures Inv(e, Step(e, s, Commit(id, host)))
  {
    if s.Up? && id in s.txns {
      var s' := Step(e, s, Commit(id, host));
      var t := s.txns[id];
      var (m, t1, r) := CommitTxn(s.m, t, host);
      if t.database.None? {
        assert s'.txns == s.txns && s' == s;
      } else if r.Ok? && t.dirty {
        CommitPublishes(e, s, id, host);
      } else {
        CommitEnds(e, s, id, host);
      }
    }
  }

  /** A commit that publishes nothing only ends the transaction. */
  lemma CommitEnds(e: Engine, s: System, id: TransactionId, host: Host)
    requires Inv(e, s) && s.Up? && id in s.txns && s.txns[id].database.Some?
    requires !(CommitTxn(s.m, s.txns[id], host).2.Ok? && s.txns[id].dirty)
    ensures Inv(e, Step(e, s, Commit(id, host)))
  {
    hide Durable, RunAll, Serial, AppendTo, TakeExclusive, WriterAlone;
    var s' := Step(e, s, Commit(id, host));
    var t := s.txns[id];
    EndKeeps(e, s, s', id);
    hide TxnsOk, LocksOk;
    if CommitTxn(s.m, t, host).2 == Err(AppendFailed) {
      AppendDurable(e, s.m.journal.value, s.hist, Version(t.database.value, s.traces[id]), host.io);
      assert SnapshotOk(e, s, id);
    }
  }

  /** A publishing commit: nobody else was reading, and the new version extends the history. */
  lemma CommitPublishes(e: Engine, s: System, id: TransactionId, host: Host)
    requires Inv(e, s) && s.Up? && id in s.txns && s.txns[id].database.Some?
    requires CommitTxn(s.m, s.txns[id], host).2.Ok? && s.txns[id].dirty
    ensures Inv(e, Step(e, s, Commit(id, host)))
  {
    hide Durable, RunAll, Serial, AppendTo;
    var s' := Step(e, s, Commit(id, host));
    var t, v := s.txns[id], Version(s.txns[id].database.value, s.traces[id]);
    Exclusion(s.m.locks, id);
    assert SnapshotOk(e, s, id);
    SerialGrows(e, s.hist, v);
    if s.m.journal.Some? { AppendDurable(e, s.m.journal.value, s.hist, v, host.io); }
    forall x | Holds(s', x) ensures Active(s', x) && s'.txns[x].isolation == Serializable {
      assert Holds(s, x);
    }
    forall x | x in s'.txns
      ensures s'.txns[x].id == x && x < s'.m.nextId && SerializableOk(s', x) && SnapshotOk(e, s', x)
    {
      assert SnapshotOk(e, s, x) && SerializableOk(s, x);
    }
  }

  lemma CrashKeeps(e: Engine, s: System, keep: nat)
    requires Inv(e, s)
    ensures Inv(e, Step(e, s, Crash(keep)))
  {
    hide Records, Record, RunAll;
    if s.Up? && s.m.journal.Some? {
      var file, n := s.m.journal.value.file, |Records(Images(s.hist), 0)|;
      var file' := AfterCrash(file, n, keep);
      assert file'[..n] == file[..n];
      if n + keep <= |file| { assert file'[n..] == file[n..][..keep]; }
    }
  }

  lemma {:induction false} AllShortImages(hist: seq<Version>)
    ensures AllShort(Images(hist)) && |Images(hist)| == |hist|
    ensures hist != [] ==> Images(hist) != [] && Images(hist)[|hist| - 1] == hist[|hist| - 1].image
  {}

  /**
   What recovery finds in a durable file: the last acknowledged version, or the single pending one right
   behind it; it fails only when not even the first record is complete.
   */
  lemma RecoverDurable(file: Bytes, hist: seq<Version>, pending: Option<Version>)
    requires Durable(file, hist, pending)
    ensures hist != [] ==>
              var last, n := hist[|hist| - 1], |Records(Images(hist), 0)|;
              || Recover(file) == Ok((n, Some((|hist| - 1, last.image))))
              || (pending.Some? && file == Records(Images(hist + [pending.value]), 0)
                  && Recover(file) == Ok((|file|, Some((|hist|, pending.value.image)))))
    ensures hist == [] && file != [] ==>
              || Recover(file).Err?
              || (pending.Some? && file == Records(Images([pending.value]), 0)
                  && Recover(file) == Ok((|file|, Some((0, pending.value.image)))))
    ensures file == [] ==> Recover(file) == Ok((0, None))
  {
    hide Record, Recover;
    AllShortImages(hist);
    var ps := Images(hist);
    var r := Records(ps, 0);
    assert file == r + file[|r|..];
    if pending.None? {
      assert file == r;
      if hist != [] { RecoverWhole(ps); }
    } else {
      var v := pending.value;
      var rec, tail := Record(|hist|, v.image), file[|r|..];
      if tail == rec {
        ImagesAppend(hist, v);
        AllShortImages(hist + [v]);
        assert [] + [v] == [v];
        RecoverWhole(Images(hist + [v]));
      } else {
        assert tail == rec[..|tail|] && |tail| < |rec|;
        if hist != [] {
          RecoverTorn(ps, v.image, |tail|);
        } else {
          assert file == tail;
          if tail != [] { RecoverNoInitial(v.image, |tail|); }
        }
      }
    }
    if file == [] { RecoverEmpty(); }
  }

  lemma RecoverEmpty()
    ensures Recover([]) == Ok((0, None))
  {}

  lemma BootKeeps(e: Engine, s: System, image: Image, host: Host)
    requires Inv(e, s)
    ensures Inv(e, Step(e, s, Boot(image, host)))
  {
    if s.Down? {
      RecoverDurable(s.file, s.hist, s.pending);
      if s.file == [] {
        BootEmpty(e, s, image, host);
      } else {
        BootAgain(e, s, image, host);
      }
    }
  }

  lemma DurableFilled(file: Bytes, hist: seq<Version>, pending: Option<Version>)
    ensures Durable(file, hist, pending) && hist != [] ==> file != []
  {
    hide Record, Records;
    AllShortImages(hist);
    if hist != [] { RecordsFilled(Images(hist), 0); }
  }

  lemma BootEmpty(e: Engine, s: System, image: Image, host: Host)
    requires Inv(e, s) && s.Down? && s.file == []
    ensures Inv(e, Step(e, s, Boot(image, host)))
  {
    hide Record, RunAll;
    RecoverEmpty();
    DurableFilled(s.file, s.hist, s.pending);
    assert Durable([], [], None);
    AppendDurable(e, JournalState([], false), [], Version(image, []), host.io);
    assert [] + [Version(image, [])] == [Version(image, [])];
  }

  lemma BootAgain(e: Engine, s: System, image: Image, host: Host)
    requires Inv(e, s) && s.Down? && s.file != []
    ensures Inv(e, Step(e, s, Boot(image, host)))
  {
    hide Record, Recover, RunAll;
    RecoverDurable(s.file, s.hist, s.pending);
    if Recover(s.file).Ok? {
      var (n, latest) := Recover(s.file).value;
      if s.hist != [] && n == |Records(Images(s.hist), 0)|
        && latest == Some((|s.hist| - 1, s.hist[|s.hist| - 1].image)) {
        assert s.file[..n] == Records(Images(s.hist), 0);
      } else {
        assert [] + [s.pending.value] == [s.pending.value];
        SerialGrows(e, s.hist, s.pending.value);
        assert s.file[..|s.file|] == s.file;
      }
    }
  }

  lemma StepKeeps(e: Engine, s: System, ev: Event)
    requires Inv(e, s)
    ensures Inv(e, Step(e, s, ev))
  {
    match ev
    case Begin(isolation, copied) => BeginKeeps(e, s, isolation, copied);
    case Run(id, sql) => RunKeeps(e, s, id, sql);
    case Commit(id, host) => CommitKeeps(e, s, id, host);
    case Abort(id) => AbortKeeps(e, s, id);
    case Crash(keep) => CrashKeeps(e, s, keep);
    case Boot(image, host) => BootKeeps(e, s, image, host);
  }

  /** Every state of every run satisfies the invariant. */
  lemma {:induction false} RunsKeep(e: Engine, s: System, evs: seq<Event>)
    requires Inv(e, s)
    ensures Inv(e, Exec(e, s, evs))
  {
    if evs != [] {
      RunsKeep(e, s, evs[..|evs| - 1]);
      StepKeeps(e, Exec(e, s, evs[..|evs| - 1]), evs[|evs| - 1]);
    }
  }

  lemma StartsOk(e: Engine, image: Image)
    ensures Inv(e, FRESH) && Inv(e, TempSystem(image))
  {}

  /** All states reachable with a durable or a temporary manager. */
  ghost predicate Reachable(e: Engine, s: System) {
    exists evs: seq<Event>, image: Image, durable: bool {:trigger Exec(e, StartOf(image, durable), evs)} ::
      s == Exec(e, StartOf(image, durable), evs)
  }

  ghost function StartOf(image: Image, durable: bool): System { if durable then FRESH else TempSystem(image) }

  lemma ReachableInv(e: Engine, s: System)
    requires Reachable(e, s)
    ensures Inv(e, s)
  {
    var evs: seq<Event>, image: Image, durable: bool :| s == Exec(e, StartOf(image, durable), evs);
    StartsOk(e, image);
    RunsKeep(e, StartOf(image, durable), evs);
  }

  // ---- what this means ------------------------------------------------------------------------

  /** The statements of all versions after the first, in version order. */
  ghost function AllStmts(hist: seq<Version>): seq<string> {
    if |hist| <= 1 then [] else AllStmts(hist[..|hist| - 1]) + hist[|hist| - 1].stmts
  }

  lemma {:induction false} RunAllAppend(e: Engine, a: seq<string>, b: seq<string>, image: Image)
    ensures RunAll(e, a + b, image) ==
            match RunAll(e, a, image) case None => None case Some(i) => RunAll(e, b, i)
  {
    if b == [] {
      assert a + b == a;
    } else {
      var n := |b| - 1;
      assert (a + b)[..|a + b| - 1] == a + b[..n];
      RunAllAppend(e, a, b[..n], image);
    }
  }

  lemma SerialPrefix(e: Engine, hist: seq<Version>, n: nat)
    requires Serial(e, hist) && n <= |hist|
    ensures Serial(e, hist[..n])
  {
    hide RunAll;
    var h := hist[..n];
    forall v | 0 < v < n ensures RunAll(e, h[v].stmts, h[v - 1].image) == Some(h[v].image) {
      assert RunAll(e, hist[v].stmts, hist[v - 1].image) == Some(hist[v].image);
    }
  }

  lemma {:induction false} SerialReplay(e: Engine, hist: seq<Version>)
    requires Serial(e, hist) && hist != []
    ensures RunAll(e, AllStmts(hist), hist[0].image) == Some(hist[|hist| - 1].image)
  {
    if |hist| > 1 {
      var n := |hist| - 1;
      var h := hist[..n];
      SerialPrefix(e, hist, n);
      SerialReplay(e, h);
      RunAllAppend(e, AllStmts(h), hist[n].stmts, hist[0].image);
    }
  }

  /**
   Serial equivalence: whatever the interleaving, the published database is what executing the committed
   transactions' statements one after the other, in version order, makes of version 0.
   */
  lemma SerialEquivalence(e: Engine, s: System)
    requires Reachable(e, s) && s.Up?
    ensures |s.hist| == s.m.version + 1
    ensures RunAll(e, AllStmts(s.hist), s.hist[0].image) == Some(s.m.database)
  {
    ReachableInv(e, s);
    SerialReplay(e, s.hist);
  }

  /** Snapshot stability: a live transaction sees its own statements on its base version and nothing else. */
  lemma SnapshotStability(e: Engine, s: System, id: TransactionId)
    requires Reachable(e, s) && s.Up? && Active(s, id)
    ensures var t := s.txns[id];
            && id in s.traces && t.baseVersion < |s.hist| == s.m.version + 1
            && RunAll(e, s.traces[id], s.hist[t.baseVersion].image) == t.database
  {
    ReachableInv(e, s);
    assert SnapshotOk(e, s, id);
  }

  /** An event that publishes a version. */
  ghost predicate Publishes(s: System, ev: Event) {
    && s.Up? && ev.Commit? && ev.id in s.txns && ev.id in s.traces
    && s.txns[ev.id].dirty && CommitTxn(s.m, s.txns[ev.id], ev.host).2.Ok?
  }

  /** Aborted, conflicting and read-only transactions leave no trace in the published state. */
  lemma NoTrace(e: Engine, s: System, ev: Event)
    requires !Publishes(s, ev) && s.Up? && !ev.Crash?
    ensures var s' := Step(e, s, ev);
            s'.Up? && s'.hist == s.hist && s'.m.database == s.m.database && s'.m.version == s.m.version
  {}

  /** The acknowledged history only ever grows at its end, across crashes and restarts too. */
  lemma HistoryGrows(e: Engine, s: System, ev: Event)
    requires Inv(e, s)
    ensures s.hist <= Step(e, s, ev).hist
    ensures Publishes(s, ev) ==>
              |Step(e, s, ev).hist| == |s.hist| + 1 && s.txns[ev.id].baseVersion == |s.hist| - 1
  {
    if ev.Boot? && s.Down? && s.file == [] {
      DurableFilled(s.file, s.hist, s.pending);
    }
  }

  lemma {:induction false} RunGrows(e: Engine, s: System, evs: seq<Event>, i: nat, j: nat)
    requires Inv(e, s) && i <= j <= |evs|
    ensures Exec(e, s, evs[..i]).hist <= Exec(e, s, evs[..j]).hist
    decreases j - i
  {
    hide Inv, Step, Publishes;
    if i < j {
      RunGrows(e, s, evs, i, j - 1);
      RunsKeep(e, s, evs[..j - 1]);
      assert evs[..j][..j - 1] == evs[..j - 1];
      HistoryGrows(e, Exec(e, s, evs[..j - 1]), evs[j - 1]);
    }
  }

  /** At most one writer commits on any base version: later publishing commits have later bases. */
  lemma OneWriterPerVersion(e: Engine, s: System, evs: seq<Event>, i: nat, j: nat)
    requires Inv(e, s) && i < j < |evs|
    requires Publishes(Exec(e, s, evs[..i]), evs[i]) && Publishes(Exec(e, s, evs[..j]), evs[j])
    ensures Exec(e, s, evs[..i]).txns[evs[i].id].baseVersion < Exec(e, s, evs[..j]).txns[evs[j].id].baseVersion
  {
    hide Inv, Publishes, Step;
    RunsKeep(e, s, evs[..i]);
    RunsKeep(e, s, evs[..j]);
    HistoryGrows(e, Exec(e, s, evs[..i]), evs[i]);
    HistoryGrows(e, Exec(e, s, evs[..j]), evs[j]);
    assert evs[..i + 1][..i] == evs[..i] && evs[..i + 1][i] == evs[i];
    assert Exec(e, s, evs[..i + 1]) == Step(e, Exec(e, s, evs[..i]), evs[i]);
    RunGrows(e, s, evs, i + 1, j);
  }

  /** An event that gets as far as writing a version: it publishes it, or its append fails and leaves it pending. */
  ghost predicate Attempts(s: System, ev: Event) {
    && s.Up? && ev.Commit? && ev.id in s.txns && ev.id in s.traces && s.txns[ev.id].database.Some?
    && s.txns[ev.id].dirty
    && (CommitTxn(s.m, s.txns[ev.id], ev.host).2.Ok? || CommitTxn(s.m, s.txns[ev.id], ev.host).2 == Err(AppendFailed))
  }

  /** The version such an event writes. */
  ghost function Attempted(s: System, ev: Event): Version
    requires Attempts(s, ev)
  {
    Version(s.txns[ev.id].database.value, s.traces[ev.id])
  }

  /** Every attempt is based on the last acknowledged version, and none is made while one is pending. */
  lemma AttemptBase(e: Engine, s: System, ev: Event)
    requires Inv(e, s) && Attempts(s, ev)
    ensures s.txns[ev.id].baseVersion == |s.hist| - 1 && s.pending == None
  {
    hide Durable, RunAll, Serial, AppendTo, LocksOk, TxnsOk;
  }

  /** How the history grows: by a publishing commit, or at a restart by the pending version. */
  lemma GrowthStep(e: Engine, s: System, ev: Event)
    requires Inv(e, s) && s.hist != [] && Step(e, s, ev).hist != s.hist
    ensures var s' := Step(e, s, ev);
            || (Attempts(s, ev) && s'.hist == s.hist + [Attempted(s, ev)])
            || (ev.Boot? && s.pending.Some? && s'.hist == s.hist + [s.pending.value])
  {
    hide Durable, RunAll, Serial, AppendTo, LocksOk, TxnsOk, Recover;
    if ev.Boot? && s.Down? { DurableFilled(s.file, s.hist, s.pending); }
  }

  /** A version becomes pending by an attempt, and stays it until a restart. */
  lemma PendingStep(e: Engine, s: System, ev: Event, p: Version)
    requires Inv(e, s) && Step(e, s, ev).pending == Some(p) && Step(e, s, ev).hist != []
    ensures Step(e, s, ev).hist == s.hist
    ensures (s.pending == Some(p) && !Attempts(s, ev)) || (Attempts(s, ev) && Attempted(s, ev) == p)
  {
    hide Durable, RunAll, Serial, AppendTo, LocksOk, TxnsOk, Recover;
    if ev.Boot? && s.Down? { DurableFilled(s.file, s.hist, s.pending); }
  }

  /** Event i wrote version v, and no later one worked on the same base. */
  ghost predicate WroteLast(e: Engine, s: System, evs: seq<Event>, i: nat, v: nat, version: Version)
    requires i < |evs|
  {
    && Attempts(Exec(e, s, evs[..i]), evs[i]) && Attempted(Exec(e, s, evs[..i]), evs[i]) == version
    && Exec(e, s, evs[..i]).txns[evs[i].id].baseVersion == v - 1
    && forall j | i < j < |evs| && Attempts(Exec(e, s, evs[..j]), evs[j]) ::
         Exec(e, s, evs[..j]).txns[evs[j].id].baseVersion >= v
  }

  /** One more event that does not work on an earlier base. */
  lemma WroteStill(e: Engine, s: System, evs: seq<Event>, i: nat, v: nat, version: Version)
    requires evs != [] && i < |evs| - 1 && WroteLast(e, s, evs[..|evs| - 1], i, v, version)
    requires var last := Exec(e, s, evs[..|evs| - 1]);
             Attempts(last, evs[|evs| - 1]) ==> last.txns[evs[|evs| - 1].id].baseVersion >= v
    ensures WroteLast(e, s, evs, i, v, version)
  {
    hide Attempts, Attempted, Exec;
    var init := evs[..|evs| - 1];
    assert forall j | 0 <= j < |init| :: init[..j] == evs[..j] && init[j] == evs[j];
  }

  lemma ExecLast(e: Engine, s: System, evs: seq<Event>)
    requires evs != []
    ensures Exec(e, s, evs) == Step(e, Exec(e, s, evs[..|evs| - 1]), evs[|evs| - 1])
  {}

  lemma WroteNow(e: Engine, s: System, evs: seq<Event>, version: Version)
    requires evs != [] && Inv(e, s)
    requires Attempts(Exec(e, s, evs[..|evs| - 1]), evs[|evs| - 1])
    requires Attempted(Exec(e, s, evs[..|evs| - 1]), evs[|evs| - 1]) == version
    ensures WroteLast(e, s, evs, |evs| - 1, |Exec(e, s, evs[..|evs| - 1]).hist|, version)
  {
    hide Inv, Attempts, Attempted;
    RunsKeep(e, s, evs[..|evs| - 1]);
    AttemptBase(e, Exec(e, s, evs[..|evs| - 1]), evs[|evs| - 1]);
  }

  /** A pending version was written by the last attempt. */
  lemma {:induction false} PendingWritten(e: Engine, s: System, evs: seq<Event>, p: Version) returns (i: nat)
    requires Inv(e, s) && s.pending == None && Exec(e, s, evs).pending == Some(p) && Exec(e, s, evs).hist != []
    ensures i < |evs| && WroteLast(e, s, evs, i, |Exec(e, s, evs).hist|, p)
    decreases |evs|
  {
    hide Inv, Step, Attempts, Attempted, WroteLast;
    var n := |evs| - 1;
    var last := Exec(e, s, evs[..n]);
    RunsKeep(e, s, evs[..n]);
    ExecLast(e, s, evs);
    PendingStep(e, last, evs[n], p);
    if Attempts(last, evs[n]) {
      i := n;
      WroteNow(e, s, evs, p);
    } else {
      i := PendingWritten(e, s, evs[..n], p);
      WroteStill(e, s, evs, i, |last.hist|, p);
    }
  }

  /**
   Every version a run adds was written by exactly one transaction, also one whose append was never acknowledged and
   which a restart found complete: it is the last that worked on the version before.
   */
  lemma {:induction false} VersionWritten(e: Engine, s: System, evs: seq<Event>, v: nat) returns (i: nat)
    requires Inv(e, s) && s.pending == None && s.hist != [] && |s.hist| <= v < |Exec(e, s, evs).hist|
    ensures i < |evs| && WroteLast(e, s, evs, i, v, Exec(e, s, evs).hist[v])
    decreases |evs|
  {
    hide Inv, Step, Attempts, Attempted, WroteLast;
    var n := |evs| - 1;
    assert evs != [];
    var init := evs[..n];
    var last := Exec(e, s, init);
    RunsKeep(e, s, init);
    ExecLast(e, s, evs);
    assert init[..0] == [] && init[..n] == init;
    RunGrows(e, s, init, 0, n);
    HistoryGrows(e, last, evs[n]);
    if v < |last.hist| {
      i := VersionWritten(e, s, init, v);
      if Attempts(last, evs[n]) { AttemptBase(e, last, evs[n]); }
      WroteStill(e, s, evs, i, v, last.hist[v]);
    } else {
      GrowthStep(e, last, evs[n]);
      if Attempts(last, evs[n]) && Step(e, last, evs[n]).hist == last.hist + [Attempted(last, evs[n])] {
        i := n;
        WroteNow(e, s, evs, Attempted(last, evs[n]));
      } else {
        i := PendingWritten(e, s, init, last.pending.value);
        NoAttempt(e, last, evs[n]);
        WroteStill(e, s, evs, i, v, last.pending.value);
      }
    }
  }

  lemma NoAttempt(e: Engine, s: System, ev: Event)
    requires ev.Boot?
    ensures !Attempts(s, ev)
  {}

  /** A writer excludes every other lock holder, and when no transaction is live no lock is left. */
  lemma NoLeakedLocks(e: Engine, s: System)
    requires Reachable(e, s) && s.Up?
    ensures WriterAlone(s.m.locks)
    ensures forall id | Holds(s, id) :: Active(s, id)
    ensures (forall id | id in s.txns :: !Active(s, id)) ==> s.m.locks == NO_LOCKS
  {
    ReachableInv(e, s);
    if forall id | id in s.txns :: !Active(s, id) {
      assert forall id | id in s.m.locks.readers :: Holds(s, id);
      if s.m.locks.writer.Some? { assert Holds(s, s.m.locks.writer.value); }
    }
  }

  /**
   A live serializable transaction always works on the current version, and once it has upgraded its commit
   cannot fail with a write conflict.
   */
  lemma UpgradedNeverConflicts(e: Engine, s: System, id: TransactionId, host: Host)
    requires Reachable(e, s) && s.Up? && Active(s, id) && s.txns[id].isolation == Serializable
    ensures s.txns[id].baseVersion == s.m.version
    ensures CommitTxn(s.m, s.txns[id], host).2 != Err(WriteConflict)
  {
    ReachableInv(e, s);
    assert SerializableOk(s, id);
    Exclusion(s.m.locks, id);
  }

  /** Under snapshot isolation a commit conflicts exactly when the version moved on or a serializable one is live. */
  lemma SnapshotConflicts(e: Engine, s: System, id: TransactionId, host: Host)
    requires Reachable(e, s) && s.Up? && Active(s, id) && s.txns[id].isolation == SnapshotIsolation
    ensures CommitTxn(s.m, s.txns[id], host).2 == Err(WriteConflict) <==>
            && !JournalDown(s.m) && s.txns[id].dirty
            && (s.txns[id].baseVersion != s.m.version
                || exists x :: x in s.txns && Active(s, x) && s.txns[x].isolation == Serializable)
  {
    ReachableInv(e, s);
    Exclusion(s.m.locks, id);
    assert !Holds(s, id);
    if exists x :: x in s.txns && Active(s, x) && s.txns[x].isolation == Serializable {
      var x :| x in s.txns && Active(s, x) && s.txns[x].isolation == Serializable;
      assert SerializableOk(s, x);
    }
    assert forall r | r in s.m.locks.readers :: Holds(s, r);
    if s.m.locks.writer.Some? { assert Holds(s, s.m.locks.writer.value); }
  }

  /**
   Durability: crash anywhere, in the middle of an append or not, and start again. The manager comes back with
   exactly the last acknowledged version, or with the one version whose append had not been acknowledged. Where the host
   cannot open the image it does not come back, and nothing is lost.
   */
  lemma Durability(e: Engine, s: System, keep: nat, image: Image, host: Host)
    requires Reachable(e, s) && s.Up? && s.m.journal.Some?
    ensures var s' := Step(e, Step(e, s, Crash(keep)), Boot(image, host));
            && (s'.Up? <==> host.imaged)
            && (s'.Down? ==> s'.hist == s.hist && s'.pending == s.pending && Durable(s'.file, s.hist, s.pending))
            && (s'.Up? ==> s'.txns == map[] && s'.pending == None)
            && (s'.Up? ==>
                (s'.m.version == s.m.version && s'.m.database == s.m.database && s'.hist == s.hist)
                || (s.pending.Some? && s'.m.version == s.m.version + 1 && s'.m.database == s.pending.value.image
                    && s'.hist == s.hist + [s.pending.value]))
  {
    hide Record, Records, Recover, RunAll, LocksOk, TxnsOk, History, Durable, AfterCrash;
    ReachableInv(e, s);
    CrashKeeps(e, s, keep);
    var d := Step(e, s, Crash(keep));
    RecoverDurable(d.file, d.hist, d.pending);
    DurableFilled(d.file, d.hist, d.pending);
    BootKeeps(e, d, image, host);
  }
}
