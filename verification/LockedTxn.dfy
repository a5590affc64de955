/** The scoped batch object and the database calls it makes, each proved against the state machine. */
module LockedTxn {
  import opened BatchModel
  import opened Wrappers

  /** The part of the database that batches touch.  owner and log only record what happens. */
  class BatchDb {
    var durable: Data
    var working: Data
    var batchActive: bool
    ghost var owner: Option<nat>
    ghost var log: seq<Event>

    ghost predicate Valid()
      reads this
    {
      batchActive <==> owner.Some?
    }

    ghost function State(): DbState
      reads this
    {
      DbState(durable, working, owner, log)
    }

    constructor (data: Data)
      ensures Valid() && State() == Start(data).d
    {
      durable, working, batchActive, owner, log := data, data, false, None, [];
    }

    /** Opens a batch and says so, or leaves the one in progress alone.  startOk says whether a new batch can be
        started; if not, the call throws. */
    method BatchStart(startOk: bool, ghost serial: nat) returns (threw: bool, started: bool)
      requires Valid()
      modifies this
      ensures Valid() && threw == !CanOpen(old(State()), startOk)
      ensures threw ==> State() == old(State())
      ensures !threw ==> (State(), Scoped(serial, started, true)) == BatchModel.Open(old(State()), serial)
    {
      if batchActive {
        return false, false;
      }
      if !startOk {
        return true, false;
      }
      working, batchActive := durable, true;
      owner, log := Some(serial), log + [Started(serial)];
      return false, true;
    }

    /** Commits the batch; commitOk says whether that succeeds.  The batch is over either way. */
    method BatchStop(commitOk: bool, ghost caller: nat) returns (threw: bool)
      requires Valid()
      modifies this
      ensures Valid() && threw == (old(owner).None? || !commitOk)
      ensures State() == BatchModel.Commit(old(State()), Scoped(caller, true, true), commitOk).0
    {
      if !batchActive {
        return true;
      }
      if commitOk {
        durable, batchActive := working, false;
        log := log + [Stopped(caller, owner.value)];
        owner := None;
        return false;
      }
      working, batchActive := durable, false;
      log := log + [StopFailed(caller, owner.value)];
      owner := None;
      return true;
    }

    method BatchAbort(ghost caller: nat) returns (threw: bool)
      requires Valid()
      modifies this
      ensures Valid() && threw == old(owner).None?
      ensures State() == BatchModel.Abort(old(State()), Scoped(caller, true, true)).0
    {
      if !batchActive {
        return true;
      }
      working, batchActive := durable, false;
      log := log + [Aborted(caller, owner.value)];
      owner := None;
      return false;
    }

    method Put(data: Data)
      requires Valid()
      modifies this
      ensures Valid() && State() == BatchModel.Write(old(State()), data)
    {
      if !batchActive {
        durable := data;
      }
      working := data;
      log := log + [Wrote(data)];
    }
  }

  class LockedTxn {
    const db: BatchDb
    var batch: bool
    var active: bool
    ghost const serial: nat

    ghost function State(): Scoped
      reads this
    {
      Scoped(serial, batch, active)
    }

    constructor (db: BatchDb, batch: bool, ghost serial: nat)
      ensures this.db == db && State() == Scoped(serial, batch, true)
    {
      this.db, this.serial, this.batch, active := db, serial, batch, true;
    }

    /** The source's constructor: starts a batch if there is none.  If that throws there is no object. */
    static method Open(db: BatchDb, startOk: bool, ghost serial: nat) returns (o: Option<LockedTxn>)
      requires db.Valid()
      modifies db
      ensures db.Valid() && o.Some? == CanOpen(old(db.State()), startOk)
      ensures o.None? ==> db.State() == old(db.State())
      ensures o.Some? ==> fresh(o.value) && o.value.db == db
      ensures o.Some? ==> (db.State(), o.value.State()) == BatchModel.Open(old(db.State()), serial)
    {
      var threw, started := db.BatchStart(startOk, serial);
      if threw {
        return None;
      }
      var txn := new LockedTxn(db, started, serial);
      o := Some(txn);
    }

    /** An exception is filtered, and the object stays active. */
    method Commit(commitOk: bool)
      requires db.Valid()
      modifies this, db
      ensures db.Valid() && (db.State(), State()) == BatchModel.Commit(old(db.State()), old(State()), commitOk)
    {
      if batch && active {
        var threw := db.BatchStop(commitOk, serial);
        if !threw {
          active := false;
        }
      }
    }

    method Abort()
      requires db.Valid()
      modifies this, db
      ensures db.Valid() && (db.State(), State()) == BatchModel.Abort(old(db.State()), old(State()))
    {
      if batch && active {
        var threw := db.BatchAbort(serial);
        if !threw {
          active := false;
        }
      }
    }

    /** The destructor. */
    method Destroy()
      requires db.Valid()
      modifies this, db
      ensures db.Valid() && (db.State(), State()) == BatchModel.Abort(old(db.State()), old(State()))
    {
      Abort();
    }
  }

  /** The objects in scope are those of the state machine. */
  ghost predicate Represents(stack: seq<LockedTxn>, db: BatchDb, w: World)
    reads db, set o | o in stack
  {
    && db.Valid() && db.State() == w.d && |stack| == |w.stack|
    && (forall i | 0 <= i < |stack| :: stack[i].db == db && stack[i].State() == w.stack[i])
    && (forall i, j | 0 <= i < j < |stack| :: stack[i] != stack[j])
  }

  /** Carries out one operation on the objects in scope. */
  method Perform(stack: seq<LockedTxn>, db: BatchDb, op: Op, ghost w: World) returns (after: seq<LockedTxn>)
    requires Represents(stack, db, w) && Legal(w, op)
    modifies db, set o | o in stack
    ensures Represents(after, db, Step(w, op))
    ensures forall o | o in after :: o in stack || fresh(o)
  {
    hide BatchModel.Commit, BatchModel.Abort, BatchModel.Open, Write;
    after := stack;
    match op {
      case OpenOp(startOk) =>
        var o := LockedTxn.Open(db, startOk, w.next);
        if o.Some? {
          after := stack + [o.value];
        }
      case CommitOp(i, ok) =>
        stack[i].Commit(ok);
      case AbortOp(i) =>
        stack[i].Abort();
      case CloseOp =>
        stack[|stack| - 1].Destroy();
        after := stack[..|stack| - 1];
      case WriteOp(data) =>
        db.Put(data);
    }
  }

  /** Any well-nested use of the objects leaves the database as the state machine says. */
  method PerformAll(data: Data, ops: seq<Op>) returns (db: BatchDb, stack: seq<LockedTxn>)
    requires WellNested(data, ops)
    ensures Represents(stack, db, Run(data, ops))
  {
    hide Legal, Step;
    db := new BatchDb(data);
    stack := [];
    assert ops[..0] == [];
    for k := 0 to |ops|
      invariant WellNested(data, ops[..k]) && Represents(stack, db, Run(data, ops[..k]))
      invariant fresh(db) && forall o | o in stack :: fresh(o)
    {
      NestedPrefix(data, ops, k + 1);
      assert ops[..k + 1][..k] == ops[..k];
      stack := Perform(stack, db, ops[k], Run(data, ops[..k]));
    }
    assert ops[..|ops|] == ops;
  }
}
