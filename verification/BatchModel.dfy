/** Write batches and the scoped objects that open, commit and abort them, as a state machine over
    any nesting of such objects. */
module BatchModel {
  import opened Wrappers

  /** What the database holds. */
  datatype Data = Data(id: nat)

  /** What happened, in order.  caller is the object that made the call, starter the one that had opened the batch. */
  datatype Event =
    | Started(starter: nat)
    | Stopped(caller: nat, starter: nat)
    | StopFailed(caller: nat, starter: nat)
    | Aborted(caller: nat, starter: nat)
    | Wrote(data: Data)

  /** The database: durable survives, working is what a batch has made of it.  owner is the object that opened the
      batch in progress. */
  datatype DbState = DbState(durable: Data, working: Data, owner: Option<nat>, log: seq<Event>)

  /** A scoped object; serial numbers objects in order of creation. */
  datatype Scoped = Scoped(serial: nat, batch: bool, active: bool)

  // ---------- the calls ----------

  /** An object can be created unless a new batch is needed and cannot be started. */
  predicate CanOpen(d: DbState, startOk: bool) {
    d.owner.Some? || startOk
  }

  /** The constructor: opens a batch unless there is one. */
  function Open(d: DbState, serial: nat): (DbState, Scoped) {
    if d.owner.Some? then (d, Scoped(serial, false, true))
    else (d.(working := d.durable, owner := Some(serial), log := d.log + [Started(serial)]), Scoped(serial, true, true))
  }

  /** commit(); stopOk says whether the database manages to commit.  Stopping without a batch throws, and so does a
      failed commit, which however ends the batch; the exception is filtered and leaves the object active. */
  function Commit(d: DbState, o: Scoped, stopOk: bool): (DbState, Scoped) {
    if !(o.batch && o.active) || d.owner.None? then (d, o)
    else if stopOk then
      (DbState(d.working, d.working, None, d.log + [Stopped(o.serial, d.owner.value)]), o.(active := false))
    else
      (DbState(d.durable, d.durable, None, d.log + [StopFailed(o.serial, d.owner.value)]), o)
  }

  /** abort(); also what the destructor does. */
  function Abort(d: DbState, o: Scoped): (DbState, Scoped) {
    if !(o.batch && o.active) || d.owner.None? then (d, o)
    else (DbState(d.durable, d.durable, None, d.log + [Aborted(o.serial, d.owner.value)]), o.(active := false))
  }

  /** A write goes to the batch in progress; without one it is durable at once. */
  function Write(d: DbState, data: Data): DbState {
    d.(durable := if d.owner.Some? then d.durable else data, working := data, log := d.log + [Wrote(data)])
  }

  // ---------- runs ----------

  /** The objects in scope, outermost first. */
  datatype World = World(d: DbState, stack: seq<Scoped>, next: nat)

  datatype Op =
    | OpenOp(startOk: bool)
    | CommitOp(index: nat, stopOk: bool)
    | AbortOp(index: nat)
    | CloseOp
    | WriteOp(data: Data)

  predicate Legal(w: World, op: Op) {
    match op
    case CommitOp(i, _) => i < |w.stack|
    case AbortOp(i) => i < |w.stack|
    case CloseOp => w.stack != []
    case _ => true
  }

  function Step(w: World, op: Op): World
    requires Legal(w, op)
  {
    match op
    case OpenOp(startOk) =>
      if CanOpen(w.d, startOk) then var (d, o) := Open(w.d, w.next); World(d, w.stack + [o], w.next + 1) else w
    case CommitOp(i, ok) => var (d, o) := Commit(w.d, w.stack[i], ok); World(d, w.stack[i := o], w.next)
    case AbortOp(i) => var (d, o) := Abort(w.d, w.stack[i]); World(d, w.stack[i := o], w.next)
    case CloseOp =>
      var n := |w.stack| - 1;
      var (d, _) := Abort(w.d, w.stack[n]); World(d, w.stack[..n], w.next)
    case WriteOp(data) => World(Write(w.d, data), w.stack, w.next)
  }

  function Start(data: Data): World {
    World(DbState(data, data, None, []), [], 0)
  }

  /** The operations can be carried out one after the other: every object that is used is in scope. */
  predicate WellNested(data: Data, ops: seq<Op>)
    decreases |ops|, 0
  {
    ops == [] || (WellNested(data, ops[..|ops| - 1]) && Legal(Run(data, ops[..|ops| - 1]), ops[|ops| - 1]))
  }

  function Run(data: Data, ops: seq<Op>): World
    requires WellNested(data, ops)
    decreases |ops|, 1
  {
    if ops == [] then Start(data) else Step(Run(data, ops[..|ops| - 1]), ops[|ops| - 1])
  }

  // ---------- what the log says ----------

  function StartsOf(log: seq<Event>, s: nat): nat {
    if log == [] then 0 else StartsOf(log[..|log| - 1], s) + if log[|log| - 1] == Started(s) then 1 else 0
  }

  predicate Ends(e: Event, s: nat) {
    (e.Stopped? || e.StopFailed? || e.Aborted?) && e.starter == s
  }

  /** A call of the object that ended a batch without an exception. */
  predicate Succeeds(e: Event, s: nat) {
    (e.Stopped? || e.Aborted?) && e.caller == s
  }

  function EndsOf(log: seq<Event>, s: nat): nat {
    if log == [] then 0 else EndsOf(log[..|log| - 1], s) + if Ends(log[|log| - 1], s) then 1 else 0
  }

  function SuccessesOf(log: seq<Event>, s: nat): nat {
    if log == [] then 0 else SuccessesOf(log[..|log| - 1], s) + if Succeeds(log[|log| - 1], s) then 1 else 0
  }

  /** What the log makes durable: stopped batches and writes outside batches, and nothing else. */
  function Durable(data: Data, log: seq<Event>): Data {
    if log == [] then data
    else
      var before := log[..|log| - 1];
      match log[|log| - 1]
      case Stopped(_, _) => Visible(data, before)
      case Wrote(x) => if InBatch(before) then Durable(data, before) else x
      case _ => Durable(data, before)
  }

  /** What a reader sees: the durable data with the writes of the batch in progress. */
  function Visible(data: Data, log: seq<Event>): Data {
    if log == [] then data
    else
      var before := log[..|log| - 1];
      match log[|log| - 1]
      case Stopped(_, _) => Visible(data, before)
      case Wrote(x) => x
      case _ => Durable(data, before)
  }

  /** A batch is in progress. */
  function InBatch(log: seq<Event>): bool {
    if log == [] then false
    else
      match log[|log| - 1]
      case Started(_) => true
      case Wrote(_) => InBatch(log[..|log| - 1])
      case _ => false
  }

  // ---------- what every step keeps ----------

  ghost predicate Serials(stack: seq<Scoped>, next: nat) {
    && (forall i, j | 0 <= i < j < |stack| :: stack[i].serial < stack[j].serial)
    && (forall i | 0 <= i < |stack| :: stack[i].serial < next)
  }

  /** The batch in progress was opened by an object in scope that still answers for it, and no younger one
      opened any. */
  ghost predicate OwnerInScope(w: World) {
    w.d.owner.Some? ==>
      && (exists i | 0 <= i < |w.stack| :: w.stack[i] == Scoped(w.d.owner.value, true, true))
      && (forall i | 0 <= i < |w.stack| :: w.stack[i].serial > w.d.owner.value ==> !w.stack[i].batch)
  }

  /** Every batch is opened once and ended at most once, and the one not ended is the one in progress. */
  ghost predicate BatchesBalanced(d: DbState, next: nat) {
    && (forall s: nat :: EndsOf(d.log, s) <= StartsOf(d.log, s) <= 1)
    && (forall s: nat :: d.owner == Some(s) <==> StartsOf(d.log, s) == 1 && EndsOf(d.log, s) == 0)
    && (forall s: nat | s >= next :: StartsOf(d.log, s) == 0 && SuccessesOf(d.log, s) == 0)
    && (forall s: nat :: SuccessesOf(d.log, s) <= 1)
  }

  /** An object opened a batch exactly if it says so, and is active exactly until a call of its own has ended
      a batch. */
  ghost predicate FlagsRight(d: DbState, o: Scoped) {
    && (o.batch <==> StartsOf(d.log, o.serial) == 1)
    && (o.active <==> SuccessesOf(d.log, o.serial) == 0) && SuccessesOf(d.log, o.serial) <= 1
  }

  ghost predicate DataRight(data: Data, d: DbState) {
    && d.durable == Durable(data, d.log) && d.working == Visible(data, d.log)
    && (d.owner.Some? <==> InBatch(d.log)) && (d.owner.None? ==> d.working == d.durable)
  }

  ghost predicate Inv(data: Data, w: World) {
    && Serials(w.stack, w.next) && OwnerInScope(w) && BatchesBalanced(w.d, w.next)
    && (forall i | 0 <= i < |w.stack| :: FlagsRight(w.d, w.stack[i])) && DataRight(data, w.d) && LogOrderly(w.d)
  }

  // ---------- the life of a batch in the log ----------

  ghost predicate WritesOnly(log: seq<Event>, k: nat, n: nat)
    requires n <= |log|
  {
    forall m | k < m < n :: log[m].Wrote?
  }

  /** The batch opened at k is ended at n, with nothing but writes in between. */
  ghost predicate EndedAt(log: seq<Event>, k: nat, n: nat) {
    k < n < |log| && log[k].Started? && WritesOnly(log, k, n) && Ends(log[n], log[k].starter)
  }

  ghost predicate Ended(log: seq<Event>, k: nat) {
    exists n :: EndedAt(log, k, n)
  }

  /** The batch opened at k has seen nothing but writes. */
  ghost predicate OpenAt(log: seq<Event>, k: nat) {
    k < |log| && log[k].Started? && WritesOnly(log, k, |log|)
  }

  /** Every batch has been ended, or is the one in progress. */
  ghost predicate LogOrderly(d: DbState) {
    && (forall k | 0 <= k < |d.log| && d.log[k].Started? ::
          Ended(d.log, k) || (d.owner == Some(d.log[k].starter) && OpenAt(d.log, k)))
    && (d.owner.Some? ==> exists k: nat :: OpenAt(d.log, k) && d.log[k].starter == d.owner.value)
  }

  lemma EndedStays(log: seq<Event>, e: Event, k: nat)
    requires Ended(log, k)
    ensures Ended(log + [e], k)
  {
    var n :| EndedAt(log, k, n);
    assert EndedAt(log + [e], k, n);
  }

  /** Started only without a batch, ended only by its own end, written to at any time. */
  lemma OrderlyNext(c: DbState, d: DbState)
    requires LogOrderly(c)
    requires
      || d == c
      || (|d.log| == |c.log| + 1 && d.log[..|c.log|] == c.log
          && var e := d.log[|c.log|];
          || (e.Started? && c.owner.None? && d.owner == Some(e.starter))
          || (e.Wrote? && d.owner == c.owner)
          || (c.owner.Some? && Ends(e, c.owner.value) && d.owner.None?))
    ensures LogOrderly(d)
  {
    if d != c {
      var n, e := |c.log|, d.log[|c.log|];
      assert d.log == c.log + [e];
      forall k | 0 <= k < |d.log| && d.log[k].Started?
        ensures Ended(d.log, k) || (d.owner == Some(d.log[k].starter) && OpenAt(d.log, k))
      {
        if k < n {
          if Ended(c.log, k) {
            EndedStays(c.log, e, k);
          } else if !e.Wrote? {
            assert EndedAt(d.log, k, n);
          }
        } else {
          assert OpenAt(d.log, k);
        }
      }
      if d.owner.Some? {
        if e.Wrote? {
          var k: nat :| OpenAt(c.log, k) && c.log[k].starter == c.owner.value;
          assert OpenAt(d.log, k);
        } else {
          assert OpenAt(d.log, n);
        }
      }
    }
  }

  // ---------- logs grow by one event ----------

  lemma LogNext(log: seq<Event>, e: Event, s: nat)
    ensures StartsOf(log + [e], s) == StartsOf(log, s) + if e == Started(s) then 1 else 0
    ensures EndsOf(log + [e], s) == EndsOf(log, s) + if Ends(e, s) then 1 else 0
    ensures SuccessesOf(log + [e], s) == SuccessesOf(log, s) + if Succeeds(e, s) then 1 else 0
  {
    assert (log + [e])[..|log|] == log;
  }

  lemma DataNext(data: Data, log: seq<Event>, e: Event)
    ensures InBatch(log + [e]) == (e.Started? || (e.Wrote? && InBatch(log)))
    ensures Durable(data, log + [e]) ==
            if e.Stopped? then Visible(data, log) else if e.Wrote? && !InBatch(log) then e.data else Durable(data, log)
    ensures Visible(data, log + [e]) ==
            if e.Stopped? then Visible(data, log) else if e.Wrote? then e.data else Durable(data, log)
  {
    assert (log + [e])[..|log|] == log;
  }

  // ---------- every step keeps the invariant ----------

  lemma OpenKeeps(data: Data, w: World, startOk: bool)
    requires Inv(data, w) && CanOpen(w.d, startOk)
    ensures Inv(data, Step(w, OpenOp(startOk)))
  {
    hide Inv;
    if w.d.owner.None? {
      OpenStarts(data, w, Step(w, OpenOp(startOk)));
    } else {
      OpenInside(data, w, Step(w, OpenOp(startOk)));
    }
  }

  lemma OpenStarts(data: Data, w: World, v: World)
    requires Inv(data, w) && w.d.owner.None?
    requires v.d == DbState(w.d.durable, w.d.durable, Some(w.next), w.d.log + [Started(w.next)])
    requires v.stack == w.stack + [Scoped(w.next, true, true)] && v.next == w.next + 1
    ensures Inv(data, v)
  {
    hide StartsOf, EndsOf, SuccessesOf, Durable, Visible, InBatch, LogOrderly;
    OrderlyNext(w.d, v.d);
    var n := |w.stack|;
    assert v.stack[n] == Scoped(w.next, true, true) && forall i | 0 <= i < n :: v.stack[i] == w.stack[i];
    forall s: nat
      ensures StartsOf(v.d.log, s) == StartsOf(w.d.log, s) + if s == w.next then 1 else 0
      ensures EndsOf(v.d.log, s) == EndsOf(w.d.log, s) && SuccessesOf(v.d.log, s) == SuccessesOf(w.d.log, s)
    {
      LogNext(w.d.log, Started(w.next), s);
    }
    DataNext(data, w.d.log, Started(w.next));
    forall i | 0 <= i < |v.stack|
      ensures FlagsRight(v.d, v.stack[i])
    {
      if i < n {
        assert FlagsRight(w.d, w.stack[i]);
      }
    }
  }

  lemma OpenInside(data: Data, w: World, v: World)
    requires Inv(data, w) && w.d.owner.Some?
    requires v.d == w.d && v.stack == w.stack + [Scoped(w.next, false, true)] && v.next == w.next + 1
    ensures Inv(data, v)
  {
    hide StartsOf, EndsOf, SuccessesOf, DataRight, LogOrderly;
    var n := |w.stack|;
    assert v.stack[n].serial == w.next && forall i | 0 <= i < n :: v.stack[i] == w.stack[i];
    hide OwnerInScope;
    OwnerStays(w, v);
  }

  /** Opening an object inside a batch leaves the owner of the batch as it was. */
  lemma OwnerStays(w: World, v: World)
    requires OwnerInScope(w) && w.d.owner.Some? && v.d == w.d && v.stack == w.stack + [Scoped(w.next, false, true)]
    ensures OwnerInScope(v)
  {
    var i :| 0 <= i < |w.stack| && w.stack[i] == Scoped(w.d.owner.value, true, true);
    assert v.stack[i] == w.stack[i];
    assert forall j | 0 <= j < |w.stack| :: v.stack[j] == w.stack[j];
  }

  lemma WriteKeeps(data: Data, w: World, x: Data)
    requires Inv(data, w)
    ensures Inv(data, Step(w, WriteOp(x)))
  {
    hide StartsOf, EndsOf, SuccessesOf, Durable, Visible, InBatch, LogOrderly;
    var v := Step(w, WriteOp(x));
    OrderlyNext(w.d, v.d);
    forall s: nat
      ensures StartsOf(v.d.log, s) == StartsOf(w.d.log, s)
      ensures EndsOf(v.d.log, s) == EndsOf(w.d.log, s) && SuccessesOf(v.d.log, s) == SuccessesOf(w.d.log, s)
    {
      LogNext(w.d.log, Wrote(x), s);
    }
    DataNext(data, w.d.log, Wrote(x));
    forall i | 0 <= i < |v.stack|
      ensures FlagsRight(v.d, v.stack[i])
    {
      assert FlagsRight(w.d, w.stack[i]);
    }
  }

  /** Ending the batch in progress, however it is done, keeps the invariant. */
  lemma EndKeeps(data: Data, w: World, v: World, i: nat, e: Event)
    requires Inv(data, w) && i < |w.stack| && w.d.owner.Some? && w.stack[i].batch && w.stack[i].active
    requires Ends(e, w.d.owner.value) && e.caller == w.stack[i].serial
    requires v.d == (if e.Stopped? then DbState(w.d.working, w.d.working, None, w.d.log + [e])
                     else DbState(w.d.durable, w.d.durable, None, w.d.log + [e]))
    requires v.stack == w.stack[i := w.stack[i].(active := e.StopFailed?)] && v.next == w.next
    ensures Inv(data, v)
  {
    hide StartsOf, EndsOf, SuccessesOf, Durable, Visible, InBatch, LogOrderly;
    OrderlyNext(w.d, v.d);
    var owner, o := w.d.owner.value, w.stack[i];
    forall s: nat
      ensures StartsOf(v.d.log, s) == StartsOf(w.d.log, s)
      ensures EndsOf(v.d.log, s) == EndsOf(w.d.log, s) + if s == owner then 1 else 0
      ensures SuccessesOf(v.d.log, s) == SuccessesOf(w.d.log, s) + if s == o.serial && !e.StopFailed? then 1 else 0
    {
      LogNext(w.d.log, e, s);
    }
    DataNext(data, w.d.log, e);
    assert FlagsRight(w.d, o);
    forall j | 0 <= j < |v.stack|
      ensures FlagsRight(v.d, v.stack[j])
    {
      assert FlagsRight(w.d, w.stack[j]);
      assert j != i ==> w.stack[j].serial != o.serial;
    }
  }

  lemma CommitKeeps(data: Data, w: World, i: nat, ok: bool)
    requires Inv(data, w) && i < |w.stack|
    ensures Inv(data, Step(w, CommitOp(i, ok)))
  {
    hide Inv;
    var v := Step(w, CommitOp(i, ok));
    if w.stack[i].batch && w.stack[i].active && w.d.owner.Some? {
      var caller, starter := w.stack[i].serial, w.d.owner.value;
      EndKeeps(data, w, v, i, if ok then Stopped(caller, starter) else StopFailed(caller, starter));
    } else {
      assert v == w;
    }
  }

  lemma AbortKeeps(data: Data, w: World, i: nat)
    requires Inv(data, w) && i < |w.stack|
    ensures Inv(data, Step(w, AbortOp(i)))
  {
    hide Inv;
    var v := Step(w, AbortOp(i));
    if w.stack[i].batch && w.stack[i].active && w.d.owner.Some? {
      EndKeeps(data, w, v, i, Aborted(w.stack[i].serial, w.d.owner.value));
    } else {
      assert v == w;
    }
  }

  /** After the innermost object has aborted, it does not own a batch, so it can go. */
  lemma CloseKeeps(data: Data, w: World)
    requires Inv(data, w) && w.stack != []
    ensures Inv(data, Step(w, CloseOp))
  {
    hide StartsOf, EndsOf, SuccessesOf, Durable, Visible, InBatch, Ends, LogOrderly;
    var n := |w.stack| - 1;
    var u := Step(w, AbortOp(n));
    AbortKeeps(data, w, n);
    var v := Step(w, CloseOp);
    assert v == u.(stack := u.stack[..n]);
    if u.d.owner.Some? {
      var i :| 0 <= i < |u.stack| && u.stack[i] == Scoped(u.d.owner.value, true, true);
      assert i != n;
      assert v.stack[i] == u.stack[i];
    }
    forall i | 0 <= i < n
      ensures FlagsRight(v.d, v.stack[i])
    {
      assert FlagsRight(u.d, u.stack[i]);
    }
  }

  lemma NotOpened(w: World)
    ensures !CanOpen(w.d, false) ==> Step(w, OpenOp(false)) == w
  {}

  lemma StepKeeps(data: Data, w: World, op: Op)
    requires Inv(data, w) && Legal(w, op)
    ensures Inv(data, Step(w, op))
  {
    hide Inv, Step;
    match op
    case OpenOp(startOk) =>
      if CanOpen(w.d, startOk) {
        OpenKeeps(data, w, startOk);
      } else {
        NotOpened(w);
      }
    case CommitOp(i, ok) => CommitKeeps(data, w, i, ok);
    case AbortOp(i) => AbortKeeps(data, w, i);
    case CloseOp => CloseKeeps(data, w);
    case WriteOp(x) => WriteKeeps(data, w, x);
  }

  lemma {:induction false} RunKeeps(data: Data, ops: seq<Op>)
    requires WellNested(data, ops)
    ensures Inv(data, Run(data, ops))
  {
    hide Step;
    if ops != [] {
      hide Inv;
      RunKeeps(data, ops[..|ops| - 1]);
      StepKeeps(data, Run(data, ops[..|ops| - 1]), ops[|ops| - 1]);
    }
  }

  // ---------- what follows for whole runs ----------

  /** In every well-nested run each batch is stopped or aborted at most once, and each object ends at most one. */
  lemma EndedOnce(data: Data, ops: seq<Op>, s: nat)
    requires WellNested(data, ops)
    ensures EndsOf(Run(data, ops).d.log, s) <= StartsOf(Run(data, ops).d.log, s) <= 1
    ensures SuccessesOf(Run(data, ops).d.log, s) <= 1
  {
    hide StartsOf, EndsOf, SuccessesOf, Run, WellNested;
    RunKeeps(data, ops);
  }

  /** When the outermost object is gone, no batch is left open, and the database holds what the stopped batches
      and the writes outside batches have left: nothing of a batch that was aborted or whose commit failed. */
  lemma AfterOutermost(data: Data, ops: seq<Op>)
    requires WellNested(data, ops) && Run(data, ops).stack == []
    ensures var d := Run(data, ops).d;
      && d.owner.None? && d.durable == Durable(data, d.log) && d.working == d.durable
      && forall s: nat :: EndsOf(d.log, s) == StartsOf(d.log, s)
  {
    hide StartsOf, EndsOf, SuccessesOf, Run, WellNested, Durable, Visible, InBatch;
    RunKeeps(data, ops);
    var d := Run(data, ops).d;
    forall s: nat
      ensures EndsOf(d.log, s) == StartsOf(d.log, s)
    {
      assert d.owner == Some(s) <==> StartsOf(d.log, s) == 1 && EndsOf(d.log, s) == 0;
    }
  }

  lemma {:induction false} NestedPrefix(data: Data, ops: seq<Op>, k: nat)
    requires WellNested(data, ops) && k <= |ops|
    ensures WellNested(data, ops[..k])
  {
    if k < |ops| {
      NestedPrefix(data, ops[..|ops| - 1], k);
      assert ops[..|ops| - 1][..k] == ops[..k];
    } else {
      assert ops[..k] == ops;
    }
  }

  lemma RunNext(data: Data, ops: seq<Op>, m: nat)
    requires WellNested(data, ops) && m < |ops|
    ensures WellNested(data, ops[..m]) && WellNested(data, ops[..m + 1]) && Legal(Run(data, ops[..m]), ops[m])
    ensures Run(data, ops[..m + 1]) == Step(Run(data, ops[..m]), ops[m])
  {
    hide Legal, Step;
    NestedPrefix(data, ops, m);
    NestedPrefix(data, ops, m + 1);
    assert ops[..m + 1][..m] == ops[..m];
  }

  /** The database after the first m operations. */
  ghost function DbAt(data: Data, ops: seq<Op>, m: nat): DbState
    requires WellNested(data, ops) && m <= |ops|
  {
    NestedPrefix(data, ops, m);
    Run(data, ops[..m]).d
  }

  /** What was written last, or what was there before. */
  function LastWrite(ops: seq<Op>, before: Data): Data {
    if ops == [] then before
    else if ops[|ops| - 1].WriteOp? then ops[|ops| - 1].data
    else LastWrite(ops[..|ops| - 1], before)
  }

  /** Operation i opens a batch that is still in progress after the first m operations. */
  ghost predicate InBatchSince(data: Data, ops: seq<Op>, i: nat, m: nat)
    requires WellNested(data, ops)
  {
    i < m <= |ops| && DbAt(data, ops, i).owner.None? && forall k | i < k <= m :: DbAt(data, ops, k).owner.Some?
  }

  lemma StepInBatch(w: World, op: Op)
    requires Legal(w, op)
    ensures var v := Step(w, op);
      && (w.d.owner.None? && v.d.owner.Some? ==> !op.WriteOp? && v.d.durable == v.d.working == w.d.durable)
      && (w.d.owner.Some? && v.d.owner.Some? ==>
            v.d.durable == w.d.durable && v.d.working == if op.WriteOp? then op.data else w.d.working)
      && (w.d.owner.Some? && v.d.owner.None? ==>
            && !op.WriteOp? && v.d.working == v.d.durable
            && v.d.durable == if op.CommitOp? && op.stopOk then w.d.working else w.d.durable)
      && (w.d.owner.None? && v.d.owner.None? ==> v.d.durable == if op.WriteOp? then op.data else w.d.durable)
  {}

  lemma LastWriteNext(ops: seq<Op>, i: nat, m: nat, before: Data)
    requires i <= m < |ops|
    ensures LastWrite(ops[i..m + 1], before) == if ops[m].WriteOp? then ops[m].data else LastWrite(ops[i..m], before)
  {
    assert ops[i..m + 1][..m - i] == ops[i..m];
  }

  /** Throughout a batch the durable data is that from before it, whatever is called, and a reader sees what was written
      last. */
  lemma {:induction false} DurableDuringBatch(data: Data, ops: seq<Op>, i: nat, m: nat)
    requires WellNested(data, ops) && InBatchSince(data, ops, i, m)
    ensures DbAt(data, ops, m).durable == DbAt(data, ops, i).durable
    ensures DbAt(data, ops, m).working == LastWrite(ops[i..m], DbAt(data, ops, i).durable)
  {
    hide Run, WellNested, Step, LastWrite;
    RunNext(data, ops, m - 1);
    StepInBatch(Run(data, ops[..m - 1]), ops[m - 1]);
    LastWriteNext(ops, i, m - 1, DbAt(data, ops, i).durable);
    if m == i + 1 {
      NothingWritten(ops[i..i], DbAt(data, ops, i).durable);
    } else {
      DurableDuringBatch(data, ops, i, m - 1);
    }
  }

  lemma NothingWritten(ops: seq<Op>, before: Data)
    requires ops == []
    ensures LastWrite(ops, before) == before
  {}

  /** A batch is all or nothing: the operation that ends it leaves what was written last if it is a commit that
      succeeds, and the data from before the batch otherwise. */
  lemma BatchOutcome(data: Data, ops: seq<Op>, i: nat, j: nat)
    requires WellNested(data, ops) && j < |ops| && InBatchSince(data, ops, i, j) && DbAt(data, ops, j + 1).owner.None?
    ensures var before := DbAt(data, ops, i).durable;
      && DbAt(data, ops, j + 1).durable ==
        (if ops[j].CommitOp? && ops[j].stopOk then LastWrite(ops[i..j], before) else before)
      && DbAt(data, ops, j + 1).working == DbAt(data, ops, j + 1).durable
  {
    hide Run, WellNested, Step, LastWrite;
    DurableDuringBatch(data, ops, i, j);
    RunNext(data, ops, j);
    StepInBatch(Run(data, ops[..j]), ops[j]);
  }

  /** Without a batch in progress the durable data changes by writes only. */
  lemma OutsideBatch(data: Data, ops: seq<Op>, m: nat)
    requires WellNested(data, ops) && m < |ops| && DbAt(data, ops, m).owner.None?
    ensures DbAt(data, ops, m + 1).durable == if ops[m].WriteOp? then ops[m].data else DbAt(data, ops, m).durable
  {
    hide Run, WellNested, Step;
    RunNext(data, ops, m);
    StepInBatch(Run(data, ops[..m]), ops[m]);
  }

  /** Once the outermost object is gone, every batch opened on the way has been ended. */
  lemma {:induction false} BatchEnds(data: Data, ops: seq<Op>, i: nat, m: nat) returns (j: nat)
    requires WellNested(data, ops) && Run(data, ops).stack == [] && InBatchSince(data, ops, i, m)
    ensures m <= j < |ops| && InBatchSince(data, ops, i, j) && DbAt(data, ops, j + 1).owner.None?
    decreases |ops| - m
  {
    hide Run, WellNested;
    AfterOutermost(data, ops);
    assert ops[..|ops|] == ops && DbAt(data, ops, |ops|).owner.None?;
    if DbAt(data, ops, m + 1).owner.None? {
      j := m;
    } else {
      j := BatchEnds(data, ops, i, m + 1);
    }
  }

  /** After the outermost destructor the database is the committed state or the one from before the batch: if operation
      i opens the last batch of a run and nothing is written after its end, the durable data is what the batch wrote
      last, if the operation that ended it was a successful commit, and otherwise what it was before operation i. */
  lemma OutermostOutcome(data: Data, ops: seq<Op>, i: nat) returns (j: nat)
    requires WellNested(data, ops) && Run(data, ops).stack == [] && InBatchSince(data, ops, i, i + 1)
    ensures i < j < |ops| && InBatchSince(data, ops, i, j) && DbAt(data, ops, j + 1).owner.None?
    ensures (forall m | j < m < |ops| :: DbAt(data, ops, m).owner.None? && !ops[m].WriteOp?) ==>
      Run(data, ops).d.durable ==
      if ops[j].CommitOp? && ops[j].stopOk then LastWrite(ops[i..j], DbAt(data, ops, i).durable)
      else DbAt(data, ops, i).durable
  {
    hide Run, WellNested, LastWrite;
    j := BatchEnds(data, ops, i, i + 1);
    BatchOutcome(data, ops, i, j);
    if forall m | j < m < |ops| :: DbAt(data, ops, m).owner.None? && !ops[m].WriteOp? {
      Unwritten(data, ops, j + 1, |ops|);
      assert ops[..|ops|] == ops;
    }
  }

  lemma {:induction false} Unwritten(data: Data, ops: seq<Op>, j: nat, m: nat)
    requires WellNested(data, ops) && j <= m <= |ops|
    requires forall k | j <= k < m :: DbAt(data, ops, k).owner.None? && !ops[k].WriteOp?
    ensures DbAt(data, ops, m).durable == DbAt(data, ops, j).durable
  {
    hide Run, WellNested;
    if j < m {
      Unwritten(data, ops, j, m - 1);
      OutsideBatch(data, ops, m - 1);
    }
  }

  /** In every well-nested run a batch is opened, written to, and ended once by an end of its own, or is in
      progress. */
  lemma BatchesInOrder(data: Data, ops: seq<Op>, k: nat)
    requires WellNested(data, ops) && k < |Run(data, ops).d.log| && Run(data, ops).d.log[k].Started?
    ensures Ended(Run(data, ops).d.log, k) || OpenAt(Run(data, ops).d.log, k)
    ensures Run(data, ops).stack == [] ==> Ended(Run(data, ops).d.log, k)
  {
    hide Run, WellNested, Ended, OpenAt;
    RunKeeps(data, ops);
    if Run(data, ops).stack == [] {
      AfterOutermost(data, ops);
    }
  }

  /** In the log, a batch from k to n leaves its last write if it was stopped, and otherwise what was durable
      before k. */
  lemma BatchInLog(data: Data, log: seq<Event>, k: nat, n: nat)
    requires EndedAt(log, k, n)
    ensures Durable(data, log[..n + 1]) ==
            if log[n].Stopped? && n > k + 1 then log[n - 1].data else Durable(data, log[..k])
  {
    hide Durable, Visible, InBatch;
    WritesInLog(data, log, k, n);
    assert log[..n + 1] == log[..n] + [log[n]];
    DataNext(data, log[..n], log[n]);
  }

  lemma {:induction false} WritesInLog(data: Data, log: seq<Event>, k: nat, n: nat)
    requires k < n <= |log| && log[k].Started? && WritesOnly(log, k, n)
    ensures InBatch(log[..n]) && Durable(data, log[..n]) == Durable(data, log[..k])
    ensures Visible(data, log[..n]) == if n > k + 1 then log[n - 1].data else Durable(data, log[..k])
  {
    hide Durable, Visible, InBatch;
    assert log[..n] == log[..n - 1] + [log[n - 1]];
    DataNext(data, log[..n - 1], log[n - 1]);
    if n > k + 1 {
      WritesInLog(data, log, k, n - 1);
    }
  }

  // ---------- who ends a batch ----------

  /** A batch ended by an object that did not open it. */
  predicate Foreign(e: Event) {
    (e.Stopped? || e.StopFailed? || e.Aborted?) && e.caller != e.starter
  }

  function ForeignEnds(log: seq<Event>): nat {
    if log == [] then 0 else ForeignEnds(log[..|log| - 1]) + if Foreign(log[|log| - 1]) then 1 else 0
  }

  /** The call would end a batch that the object did not open. */
  predicate WouldEndForeign(w: World, i: nat)
    requires i < |w.stack|
  {
    w.stack[i].batch && w.stack[i].active && w.d.owner.Some? && w.d.owner.value != w.stack[i].serial
  }

  lemma ForeignNext(w: World, op: Op)
    requires Legal(w, op)
    ensures ForeignEnds(Step(w, op).d.log) == ForeignEnds(w.d.log) + (match op
      case CommitOp(i, _) => if WouldEndForeign(w, i) then 1 else 0
      case AbortOp(i) => if WouldEndForeign(w, i) then 1 else 0
      case CloseOp => if WouldEndForeign(w, |w.stack| - 1) then 1 else 0
      case _ => 0)
  {
    var v := Step(w, op);
    assert |v.d.log| > |w.d.log| ==> v.d.log[..|v.d.log| - 1] == w.d.log;
  }

  /** The innermost object, and so a destructor, never ends a batch that another object opened. */
  lemma InnermostOwns(data: Data, w: World)
    requires Inv(data, w) && w.stack != []
    ensures !WouldEndForeign(w, |w.stack| - 1)
  {
    hide BatchesBalanced, FlagsRight, DataRight;
    var n := |w.stack| - 1;
    if w.d.owner.Some? {
      var i :| 0 <= i < |w.stack| && w.stack[i] == Scoped(w.d.owner.value, true, true);
      assert i < n ==> w.stack[i].serial < w.stack[n].serial;
    }
  }

  /** Any object in scope ends a foreign batch if and only if a batch is in progress that a younger object in scope has
      opened, its own batch has been ended, and not by a successful call of its own. */
  lemma ForeignExact(data: Data, w: World, i: nat)
    requires Inv(data, w) && i < |w.stack|
    ensures var s := w.stack[i].serial;
      WouldEndForeign(w, i) <==> w.d.owner.Some? && EndsOf(w.d.log, s) == 1 && SuccessesOf(w.d.log, s) == 0
    ensures WouldEndForeign(w, i) ==>
            exists j | i < j < |w.stack| :: w.stack[j] == Scoped(w.d.owner.value, true, true)
  {
    hide StartsOf, EndsOf, SuccessesOf, DataRight;
    var o := w.stack[i];
    assert FlagsRight(w.d, o);
    if w.d.owner.Some? {
      var j :| 0 <= j < |w.stack| && w.stack[j] == Scoped(w.d.owner.value, true, true);
      assert j < i ==> w.stack[j].serial < o.serial;
    }
    assert EndsOf(w.d.log, o.serial) <= StartsOf(w.d.log, o.serial) <= 1;
    assert w.d.owner == Some(o.serial) <==> StartsOf(w.d.log, o.serial) == 1 && EndsOf(w.d.log, o.serial) == 0;
  }

  /** No commit has failed. */
  predicate NoFailure(log: seq<Event>) {
    forall i | 0 <= i < |log| :: !log[i].StopFailed?
  }

  /** As long as no commit fails, an active object that opened a batch still owns it, and nobody ends another's. */
  ghost predicate OwnersOnly(w: World) {
    ForeignEnds(w.d.log) == 0 &&
    forall i | 0 <= i < |w.stack| :: w.stack[i].batch && w.stack[i].active ==> w.d.owner == Some(w.stack[i].serial)
  }

  lemma OwnersOnlyStep(data: Data, w: World, op: Op)
    requires Inv(data, w) && Legal(w, op) && OwnersOnly(w) && NoFailure(Step(w, op).d.log)
    ensures OwnersOnly(Step(w, op))
  {
    hide BatchesBalanced, FlagsRight, DataRight, ForeignEnds;
    ForeignNext(w, op);
    var v := Step(w, op);
    assert |v.d.log| > |w.d.log| ==> !v.d.log[|w.d.log|].StopFailed?;
    if op.OpenOp? {
      assert forall i | 0 <= i < |w.stack| :: v.stack[i] == w.stack[i];
    }
    assert forall i, j | 0 <= i < j < |w.stack| :: w.stack[i].serial != w.stack[j].serial;
  }

  lemma {:induction false} NoForeignWithoutFailure(data: Data, ops: seq<Op>)
    requires WellNested(data, ops) && NoFailure(Run(data, ops).d.log)
    ensures OwnersOnly(Run(data, ops))
  {
    hide Inv, Step;
    if ops != [] {
      var less, op := ops[..|ops| - 1], ops[|ops| - 1];
      RunKeeps(data, less);
      LogGrows(Run(data, less), op);
      NoForeignWithoutFailure(data, less);
      hide OwnersOnly;
      OwnersOnlyStep(data, Run(data, less), op);
    }
  }

  lemma LogGrows(w: World, op: Op)
    requires Legal(w, op)
    ensures w.d.log <= Step(w, op).d.log
  {}

  /** Calls on the innermost object only: then nobody ends another's batch, whatever fails. */
  ghost predicate InnermostOnly(data: Data, ops: seq<Op>)
    requires WellNested(data, ops)
  {
    ops == [] ||
    var less, op := ops[..|ops| - 1], ops[|ops| - 1];
    && InnermostOnly(data, less)
    && (op.CommitOp? || op.AbortOp? ==> op.index == |Run(data, less).stack| - 1)
  }

  lemma {:induction false} NoForeignFromInnermost(data: Data, ops: seq<Op>)
    requires WellNested(data, ops) && InnermostOnly(data, ops)
    ensures ForeignEnds(Run(data, ops).d.log) == 0
  {
    hide Inv, Step, WouldEndForeign, ForeignEnds;
    if ops == [] {
      NoEvents();
    } else {
      var less, op := ops[..|ops| - 1], ops[|ops| - 1];
      NoForeignFromInnermost(data, less);
      RunKeeps(data, less);
      var w := Run(data, less);
      ForeignNext(w, op);
      if w.stack != [] {
        InnermostOwns(data, w);
      }
    }
  }

  lemma NoEvents()
    ensures ForeignEnds([]) == 0
  {}

  /** Without either restriction it can happen: the outer object's commit fails and leaves it active, an inner object
      opens a batch and writes, and a second commit of the outer object makes that write durable while the inner object
      is in scope. */
  lemma ForeignHappens(a: Data, b: Data)
    ensures var w0 := Step(Step(Step(Step(Start(a), OpenOp(true)), CommitOp(0, false)), OpenOp(true)), WriteOp(b));
      && WouldEndForeign(w0, 0)
      && Step(w0, CommitOp(0, true)).d.durable == b
      && Step(w0, CommitOp(0, true)).stack == [Scoped(0, true, false), Scoped(1, true, true)]
  {}
}
