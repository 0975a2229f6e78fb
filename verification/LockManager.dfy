/** Database-level S/X locks without waiting (transaction/lock_manager.rs). */
module LockManagers {
  import opened Prelude

  type TransactionId = nat

  datatype Locks = Locks(readers: set<TransactionId>, writer: Option<TransactionId>)

  const NO_LOCKS: Locks := Locks({}, None)

  function TakeShared(l: Locks, id: TransactionId): (Locks, bool) {
    if l.writer.Some? && l.writer != Some(id) then (l, false) else (l.(readers := l.readers + {id}), true)
  }

  function TakeExclusive(l: Locks, id: TransactionId): (Locks, bool) {
    if l.writer.Some? && l.writer != Some(id) then (l, false)
    else if exists r | r in l.readers :: r != id then (l, false)
    else (l.(writer := Some(id)), true)
  }

  function Drop(l: Locks, id: TransactionId): Locks {
    Locks(l.readers - {id}, if l.writer == Some(id) then None else l.writer)
  }

  /** A writer shares the database with nobody but itself. */
  ghost predicate WriterAlone(l: Locks) { l.writer.Some? ==> l.readers <= {l.writer.value} }

  /** Exclusion holds over every lock operation, and a lock is granted exactly when nobody else stands in the way. */
  lemma Exclusion(l: Locks, id: TransactionId)
    requires WriterAlone(l)
    ensures WriterAlone(TakeShared(l, id).0) && WriterAlone(TakeExclusive(l, id).0) && WriterAlone(Drop(l, id))
    ensures TakeShared(l, id).1 <==> l.writer in {None, Some(id)}
    ensures TakeExclusive(l, id).1 <==> l.writer in {None, Some(id)} && l.readers <= {id}
    ensures id !in Drop(l, id).readers && Drop(l, id).writer != Some(id)
  {
    if TakeExclusive(l, id).1 {
      assert forall r | r in l.readers :: r == id;
    }
  }

  class LockManager {
    var readers: set<TransactionId>
    var writer: Option<TransactionId>

    ghost function View(): Locks reads this { Locks(readers, writer) }

    constructor ()
      ensures View() == NO_LOCKS
    {
      readers, writer := {}, None;
    }

    method Shared(id: TransactionId) returns (granted: bool)
      modifies this
      ensures (View(), granted) == TakeShared(old(View()), id)
    {
      if writer.Some? && writer != Some(id) {
        return false;
      }
      readers := readers + {id};
      granted := true;
    }

    method Exclusive(id: TransactionId) returns (granted: bool)
      modifies this
      ensures (View(), granted) == TakeExclusive(old(View()), id)
    {
      if writer.Some? && writer != Some(id) {
        return false;
      }
      if exists r | r in readers :: r != id {
        return false;
      }
      writer := Some(id);
      granted := true;
    }

    method Release(id: TransactionId)
      modifies this
      ensures View() == Drop(old(View()), id)
    {
      readers := readers - {id};
      if writer == Some(id) {
        writer := None;
      }
    }
  }
}
