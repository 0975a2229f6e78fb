/** Begin, run, commit, abort (transaction/transaction.rs, transaction/transaction_manager.rs). */
module Transactions {
  import opened Prelude
  import opened Journals
  import opened LockManagers

  datatype Isolation = Serializable | SnapshotIsolation

  /**
   The SQL engine as the transactions see it: planning says whether a statement writes or fails,
   execution yields the next image of the private database or fails.
   */
  datatype Engine = Engine(plan: (string, Image) -> Option<bool>, exec: (string, Image) -> Option<Image>)

  datatype TxError =
    | NotActive | JournalFailed | IdsExhausted | LockedByWriter | PlanFailed | UpgradeConflict | ExecFailed
    | WriteConflict | VersionsExhausted | AppendFailed | ImageFailed

  /** How the host answers: what becomes of a journal write, and whether a database image can be produced and opened. */
  datatype Host = Host(io: Io, imaged: bool)

  datatype Txn = Txn(id: TransactionId, database: Option<Image>, dirty: bool, isolation: Isolation, baseVersion: nat)

  datatype Manager = Manager(database: Image, locks: Locks, nextId: nat, version: nat, journal: Option<JournalState>)

  // ---- the operations as functions of the state -----------------------------------------------

  function JournalDown(m: Manager): bool { m.journal.Some? && m.journal.value.failed }

  function BeginTxn(m: Manager, isolation: Isolation, imaged: bool): (Manager, Result<Txn, TxError>) {
    if JournalDown(m) then (m, Err(JournalFailed))
    else if m.nextId + 1 >= U64 then (m, Err(IdsExhausted))
    else
      var id, m1 := m.nextId, m.(nextId := m.nextId + 1);
      var (locks, granted) := if isolation == Serializable then TakeShared(m1.locks, id) else (m1.locks, true);
      if !granted then (m1, Err(LockedByWriter))
      else if !imaged then (m1.(locks := Drop(locks, id)), Err(ImageFailed))
      else (m1.(locks := locks), Ok(Txn(id, Some(m1.database), false, isolation, m1.version)))
  }

  function AbortTxn(m: Manager, t: Txn): (Manager, Txn) {
    if t.database.Some? then (m.(locks := Drop(m.locks, t.id)), t.(database := None)) else (m, t)
  }

  /** One statement while the transaction is active; a first write upgrades the lock of a serializable one. */
  function RunActive(e: Engine, m: Manager, t: Txn, sql: string): (Manager, Txn, Result<(), TxError>) {
    if t.database.None? then (m, t, Err(NotActive))
    else match e.plan(sql, t.database.value)
      case None => (m, t, Err(PlanFailed))
      case Some(write) =>
        var upgrade := write && !t.dirty;
        var (locks, granted) := if upgrade && t.isolation == Serializable then TakeExclusive(m.locks, t.id)
                                else (m.locks, true);
        if !granted then (m, t, Err(UpgradeConflict))
        else
          var m1, t1 := m.(locks := locks), t.(dirty := t.dirty || upgrade);
          match e.exec(sql, t.database.value)
          case None => (m1, t1, Err(ExecFailed))
          case Some(image) => (m1, t1.(database := Some(image)), Ok(()))
  }

  /** A failing statement aborts the transaction. */
  function RunTxn(e: Engine, m: Manager, t: Txn, sql: string): (Manager, Txn, Result<(), TxError>) {
    var (m1, t1, r) := RunActive(e, m, t, sql);
    if r.Err? then
      var (m2, t2) := AbortTxn(m1, t1);
      (m2, t2, r)
    else (m1, t1, r)
  }

  function CommitTxn(m: Manager, t: Txn, host: Host): (Manager, Txn, Result<(), TxError>) {
    if t.database.None? then (m, t, Err(NotActive))
    else
      var t1, released := t.(database := None), m.(locks := Drop(m.locks, t.id));
      if JournalDown(m) then (released, t1, Err(JournalFailed))
      else if !t.dirty then (released, t1, Ok(()))
      else if m.version != t.baseVersion || !TakeExclusive(m.locks, t.id).1 then (released, t1, Err(WriteConflict))
      else if m.version + 1 >= U64 then (released, t1, Err(VersionsExhausted))
      else
        match m.journal
        case None => (released.(database := t.database.value, version := m.version + 1), t1, Ok(()))
        case Some(j) =>
          var (j1, ok) := AppendTo(j, m.version + 1, t.database.value, host.io);
          if !host.imaged then (released, t1, Err(ImageFailed))
          else if !ok then (released.(journal := Some(j1)), t1, Err(AppendFailed))
          else (released.(journal := Some(j1), database := t.database.value, version := m.version + 1), t1, Ok(()))
  }

  // ---- the objects ----------------------------------------------------------------------------

  class ManagerState {
    var database: Image
    const locks: LockManager
    var nextId: nat
    var version: nat
    const journal: Journal?

    ghost function View(): Manager
      reads this, locks, journal
    {
      Manager(database, locks.View(), nextId, version, if journal == null then None else Some(journal.View()))
    }

    /** A manager without durability. */
    constructor Temp(image: Image)
      ensures fresh(locks) && journal == null
      ensures View() == Manager(image, NO_LOCKS, 1, 0, None)
    {
      database, nextId, version, journal := image, 1, 0, null;
      locks := new LockManager();
    }

    constructor OnDisk(image: Image, version: nat, journal: Journal)
      ensures fresh(locks) && this.journal == journal
      ensures View() == Manager(image, NO_LOCKS, 1, version, Some(journal.View()))
    {
      database, nextId, this.version, this.journal := image, 1, version, journal;
      locks := new LockManager();
    }
  }

  /** What starting over a journal file leads to: the file kept, and the manager if it starts at all. */
  function BootState(file: Bytes, image: Image, host: Host): (Bytes, Option<Manager>) {
    match Recover(file)
    case Err(_) => (file, None)
    case Ok((n, latest)) =>
      var kept := if n <= |file| then file[..n] else file;
      match latest
      case Some((version, bytes)) =>
        (kept, if |bytes| < U64 && host.imaged
               then Some(Manager(bytes, NO_LOCKS, 1, version, Some(JournalState(kept, false)))) else None)
      case None =>
        var (j, ok) := AppendTo(JournalState(kept, false), 0, image, host.io);
        if !host.imaged then (kept, None)
        else (j.file, if ok then Some(Manager(image, NO_LOCKS, 1, 0, Some(j))) else None)
  }

  /** Starts a durable manager: recovers the last image, or writes the first record of an empty journal. */
  method NewOnDisk(file: Bytes, image: Image, host: Host) returns (left: Bytes, state: ManagerState?)
    ensures left == BootState(file, image, host).0
    ensures state == null <==> BootState(file, image, host).1 == None
    ensures state != null ==> fresh(state) && Some(state.View()) == BootState(file, image, host).1
  {
    var r := Journal.Open(file);
    if r.Err? {
      return file, null;
    }
    var (journal, snapshot) := r.value;
    if snapshot.Some? {
      var (version, bytes) := snapshot.value;
      left := journal.file;
      if |bytes| < U64 && host.imaged {
        state := new ManagerState.OnDisk(bytes, version, journal);
      } else {
        state := null;
      }
    } else {
      if !host.imaged {
        return journal.file, null;
      }
      var ok := journal.Append(0, image, host.io);
      left := journal.file;
      if ok {
        state := new ManagerState.OnDisk(image, 0, journal);
      } else {
        state := null;
      }
    }
  }

  /** Starts a transaction on a private copy of the published database. */
  method BeginWithIsolation(state: ManagerState, isolation: Isolation, imaged: bool)
      returns (r: Result<Transaction, TxError>)
    modifies state, state.locks
    ensures var (m, res) := BeginTxn(old(state.View()), isolation, imaged);
            && state.View() == m
            && (r.Ok? <==> res.Ok?)
            && (r.Err? ==> r.error == res.error)
            && (r.Ok? ==> fresh(r.value) && r.value.manager == state && r.value.View() == res.value)
  {
    if state.journal != null {
      var usable := state.journal.EnsureUsable();
      if !usable {
        return Err(JournalFailed);
      }
    }
    var id := state.nextId;
    if id + 1 >= U64 {
      return Err(IdsExhausted);
    }
    state.nextId := id + 1;
    if isolation == Serializable {
      var granted := state.locks.Shared(id);
      if !granted {
        return Err(LockedByWriter);
      }
    }
    if !imaged {
      state.locks.Release(id);
      return Err(ImageFailed);
    }
    var t := new Transaction(state, id, state.database, isolation, state.version);
    r := Ok(t);
  }

  class Transaction {
    const manager: ManagerState
    const id: TransactionId
    var database: Option<Image>
    var dirty: bool
    const isolation: Isolation
    const baseVersion: nat

    ghost function View(): Txn reads this { Txn(id, database, dirty, isolation, baseVersion) }

    constructor (manager: ManagerState, id: TransactionId, database: Image, isolation: Isolation, baseVersion: nat)
      ensures this.manager == manager && View() == Txn(id, Some(database), false, isolation, baseVersion)
    {
      this.manager, this.id, this.database, dirty := manager, id, Some(database), false;
      this.isolation, this.baseVersion := isolation, baseVersion;
    }

    method Abort()
      modifies this, manager.locks
      ensures (manager.View(), View()) == AbortTxn(old(manager.View()), old(View()))
    {
      if database.Some? {
        database := None;
        manager.locks.Release(id);
      }
    }

    method RunActiveStatement(e: Engine, sql: string) returns (r: Result<(), TxError>)
      modifies this, manager.locks
      ensures (manager.View(), View(), r) == RunActive(e, old(manager.View()), old(View()), sql)
    {
      if database.None? {
        return Err(NotActive);
      }
      var plan := e.plan(sql, database.value);
      if plan.None? {
        return Err(PlanFailed);
      }
      if plan.value && !dirty {
        if isolation == Serializable {
          var granted := manager.locks.Exclusive(id);
          if !granted {
            return Err(UpgradeConflict);
          }
        }
        dirty := true;
      }
      var next := e.exec(sql, database.value);
      if next.None? {
        return Err(ExecFailed);
      }
      database := next;
      r := Ok(());
    }

    /** Runs one statement on the private database; any failure aborts the transaction. */
    method Run(e: Engine, sql: string) returns (r: Result<(), TxError>)
      modifies this, manager.locks
      ensures (manager.View(), View(), r) == RunTxn(e, old(manager.View()), old(View()), sql)
    {
      r := RunActiveStatement(e, sql);
      if r.Err? {
        Abort();
      }
    }

    /** Validates, makes durable and publishes the private database, and releases the locks either way. */
    method Commit(host: Host) returns (r: Result<(), TxError>)
      modifies this, manager, manager.locks, manager.journal
      ensures (manager.View(), View(), r) == CommitTxn(old(manager.View()), old(View()), host)
    {
      if database.None? {
        return Err(NotActive);
      }
      var image := database.value;
      database := None;
      if manager.journal != null {
        var usable := manager.journal.EnsureUsable();
        if !usable {
          manager.locks.Release(id);
          return Err(JournalFailed);
        }
      }
      if dirty {
        if manager.version != baseVersion {
          manager.locks.Release(id);
          return Err(WriteConflict);
        }
        var granted := manager.locks.Exclusive(id);
        if !granted {
          manager.locks.Release(id);
          return Err(WriteConflict);
        }
        var version := manager.version + 1;
        if version >= U64 {
          manager.locks.Release(id);
          return Err(VersionsExhausted);
        }
        if manager.journal != null {
          if !host.imaged {
            manager.locks.Release(id);
            return Err(ImageFailed);
          }
          var ok := manager.journal.Append(version, image, host.io);
          if !ok {
            manager.locks.Release(id);
            return Err(AppendFailed);
          }
        }
        manager.database := image;
        manager.version := version;
      }
      manager.locks.Release(id);
      r := Ok(());
    }
  }
}
