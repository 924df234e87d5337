/** The synchronous sink over an asynchronous store: an in-memory mirror, an ordered channel, and a
    background writer to the database (rust-old/src/sql_store.rs). */
module SpawnSink {
  import opened Wrappers

  type ExecutionId = nat

  type Writer = nat

  datatype RunState = Ongoing | Finished | Broken | Reverted

  datatype ExecutionRecord = ExecutionRecord(id: ExecutionId, flowName: string, state: RunState)

  datatype WriteOp = Save(record: ExecutionRecord) | Delete(target: ExecutionId)

  type Store = map<ExecutionId, ExecutionRecord>

  function IdOf(op: WriteOp): ExecutionId {
    match op
    case Save(record) => record.id
    case Delete(id) => id
  }

  function Apply(db: Store, op: WriteOp): Store {
    match op
    case Save(record) => db[record.id := record]
    case Delete(id) => db - {id}
  }

  function Replay(db: Store, ops: seq<WriteOp>): Store {
    if ops == [] then db else Apply(Replay(db, ops[..|ops| - 1]), ops[|ops| - 1])
  }

  function Lookup(db: Store, id: ExecutionId): Option<ExecutionRecord> {
    if id in db then Some(db[id]) else None
  }

  /** The operations on one id, in order. */
  function OpsFor(id: ExecutionId, ops: seq<WriteOp>): seq<WriteOp> {
    if ops == [] then []
    else
      OpsFor(id, ops[..|ops| - 1]) + if IdOf(ops[|ops| - 1]) == id then [ops[|ops| - 1]] else []
  }

  /** What operations on one id leave there. */
  function Effect(before: Option<ExecutionRecord>, ops: seq<WriteOp>): Option<ExecutionRecord> {
    if ops == [] then before
    else
      match ops[|ops| - 1]
      case Save(record) => Some(record)
      case Delete(_) => None
  }

  lemma {:induction false} ReplayLookup(db: Store, ops: seq<WriteOp>, id: ExecutionId)
    ensures Lookup(Replay(db, ops), id) == Effect(Lookup(db, id), OpsFor(id, ops))
  {
    if ops != [] {
      ReplayLookup(db, ops[..|ops| - 1], id);
    }
  }

  lemma OpsForSnoc(id: ExecutionId, ops: seq<WriteOp>, op: WriteOp)
    ensures OpsFor(id, ops + [op]) == OpsFor(id, ops) + if IdOf(op) == id then [op] else []
  {
    assert (ops + [op])[..|ops|] == ops;
  }

  lemma {:induction false} OpsForHead(id: ExecutionId, ops: seq<WriteOp>)
    requires ops != []
    ensures OpsFor(id, ops) == (if IdOf(ops[0]) == id then [ops[0]] else []) + OpsFor(id, ops[1..])
  {
    var n := |ops| - 1;
    if n > 0 {
      OpsForHead(id, ops[..n]);
      assert ops[..n][1..] == ops[1..][..n - 1];
    }
  }

  // ---------- The interleaved system ----------

  datatype State = State(
    mirror: Store,
    pending: map<Writer, WriteOp>,  // mirrored, about to be sent
    queue: seq<WriteOp>,            // sent, not yet written
    db: Store,
    issued: seq<WriteOp>,           // history: operations in the order the mirror saw them
    written: seq<WriteOp>)          // history: operations in the order the database saw them

  ghost predicate Init(db: Store, s: State) {
    s == State(map[], map[], [], db, [], [])
  }

  /** First half of `save`: the mirror has the record, the send is still to come. */
  ghost predicate MirrorSave(s: State, w: Writer, record: ExecutionRecord, s': State) {
    && w !in s.pending
    && s' == s.(mirror := s.mirror[record.id := record], pending := s.pending[w := Save(record)],
                issued := s.issued + [Save(record)])
  }

  /** First half of `remove`: only an id the mirror holds leads to a delete being sent. */
  ghost predicate MirrorRemove(s: State, w: Writer, id: ExecutionId, s': State) {
    && w !in s.pending
    && s' == if id in s.mirror
             then s.(mirror := s.mirror - {id}, pending := s.pending[w := Delete(id)], issued := s.issued + [Delete(id)])
             else s
  }

  ghost predicate Send(s: State, w: Writer, s': State) {
    w in s.pending && s' == s.(pending := s.pending - {w}, queue := s.queue + [s.pending[w]])
  }

  ghost predicate Write(s: State, s': State) {
    && s.queue != []
    && s' == s.(queue := s.queue[1..], db := Apply(s.db, s.queue[0]), written := s.written + [s.queue[0]])
  }

  // Which writer may save or remove which execution id.
  type Permission = (Writer, ExecutionId) -> bool

  ghost predicate Next(may: Permission, s: State, s': State) {
    || (exists w, record: ExecutionRecord :: may(w, record.id) && MirrorSave(s, w, record, s'))
    || (exists w, id :: may(w, id) && MirrorRemove(s, w, id, s'))
    || (exists w :: Send(s, w, s'))
    || Write(s, s')
  }

  ghost predicate IsRun(may: Permission, db: Store, run: seq<State>) {
    && run != [] && Init(db, run[0])
    && forall i :: 0 <= i < |run| - 1 ==> Next(may, run[i], run[i + 1])
  }

  /** Each execution id is saved and removed by its one owner only. */
  ghost predicate OwnedBy(may: Permission, owner: ExecutionId -> Writer) {
    forall w, id :: may(w, id) ==> owner(id) == w
  }

  /** The operation on `id` that its owner has mirrored and not yet sent. */
  function PendingFor(owner: ExecutionId -> Writer, s: State, id: ExecutionId): seq<WriteOp> {
    if owner(id) in s.pending && IdOf(s.pending[owner(id)]) == id then [s.pending[owner(id)]] else []
  }

  ghost predicate PerIdOrder(owner: ExecutionId -> Writer, s: State, id: ExecutionId) {
    OpsFor(id, s.written) + OpsFor(id, s.queue) + PendingFor(owner, s, id) == OpsFor(id, s.issued)
  }

  /** Per id, what was written, queued and pending is what was issued, in that order. */
  ghost predicate Inv(owner: ExecutionId -> Writer, db: Store, s: State) {
    && s.db == Replay(db, s.written)
    && (forall w :: w in s.pending ==> owner(IdOf(s.pending[w])) == w)
    && (forall id :: PerIdOrder(owner, s, id))
    && (forall id :: Lookup(s.mirror, id) == Effect(None, OpsFor(id, s.issued)))
  }

  /** A newly issued operation on an id is what the mirror shows for it from then on. */
  lemma IssueShows(s: State, op: WriteOp, s': State, id: ExecutionId)
    requires s'.issued == s.issued + [op] && s'.mirror == Apply(s.mirror, op)
    requires Lookup(s.mirror, id) == Effect(None, OpsFor(id, s.issued))
    ensures Lookup(s'.mirror, id) == Effect(None, OpsFor(id, s'.issued))
  {
    OpsForSnoc(id, s.issued, op);
    hide OpsFor;
  }

  /** A newly issued operation waits at the end of its id's sequence for its owner to send it. */
  lemma IssueOrders(owner: ExecutionId -> Writer, s: State, op: WriteOp, s': State, id: ExecutionId)
    requires owner(IdOf(op)) !in s.pending && s'.pending == s.pending[owner(IdOf(op)) := op]
    requires s'.issued == s.issued + [op] && s'.written == s.written && s'.queue == s.queue
    requires PerIdOrder(owner, s, id)
    ensures PerIdOrder(owner, s', id)
  {
    OpsForSnoc(id, s.issued, op);
    hide OpsFor;
    assert IdOf(op) == id ==> PendingFor(owner, s, id) == [];
  }

  lemma IssueInv(owner: ExecutionId -> Writer, db: Store, s: State, op: WriteOp, s': State)
    requires Inv(owner, db, s) && owner(IdOf(op)) !in s.pending
    requires s' == s.(mirror := Apply(s.mirror, op), pending := s.pending[owner(IdOf(op)) := op], issued := s.issued + [op])
    ensures Inv(owner, db, s')
  {
    hide Replay, Apply, Effect, OpsFor, Lookup, PerIdOrder;
    forall id
      ensures PerIdOrder(owner, s', id) && Lookup(s'.mirror, id) == Effect(None, OpsFor(id, s'.issued))
    {
      IssueShows(s, op, s', id);
      IssueOrders(owner, s, op, s', id);
    }
  }

  lemma MirrorSaveInv(owner: ExecutionId -> Writer, db: Store, s: State, record: ExecutionRecord, s': State)
    requires Inv(owner, db, s) && MirrorSave(s, owner(record.id), record, s')
    ensures Inv(owner, db, s')
  {
    hide Inv;
    IssueInv(owner, db, s, Save(record), s');
  }

  lemma MirrorRemoveInv(owner: ExecutionId -> Writer, db: Store, s: State, target: ExecutionId, s': State)
    requires Inv(owner, db, s) && MirrorRemove(s, owner(target), target, s')
    ensures Inv(owner, db, s')
  {
    hide Inv;
    if target in s.mirror {
      IssueInv(owner, db, s, Delete(target), s');
    }
  }

  lemma SendInv(owner: ExecutionId -> Writer, db: Store, s: State, w: Writer, s': State)
    requires Inv(owner, db, s) && Send(s, w, s')
    ensures Inv(owner, db, s')
  {
    hide Replay, Effect, Lookup, OpsFor, PerIdOrder;
    forall id
      ensures PerIdOrder(owner, s', id)
    {
      assert PerIdOrder(owner, s, id);
      SendOrders(owner, s, w, s', id);
    }
  }

  lemma SendOrders(owner: ExecutionId -> Writer, s: State, w: Writer, s': State, id: ExecutionId)
    requires PerIdOrder(owner, s, id) && Send(s, w, s') && owner(IdOf(s.pending[w])) == w
    ensures PerIdOrder(owner, s', id)
  {
    var op := s.pending[w];
    OpsForSnoc(id, s.queue, op);
    hide OpsFor;
    var moved := if IdOf(op) == id then [op] else [];
    Regroup(OpsFor(id, s.written), OpsFor(id, s.queue), moved, PendingFor(owner, s', id));
    assert PendingFor(owner, s, id) == moved + PendingFor(owner, s', id);
  }

  lemma WriteInv(owner: ExecutionId -> Writer, db: Store, s: State, s': State)
    requires Inv(owner, db, s) && Write(s, s')
    ensures Inv(owner, db, s')
  {
    assert s'.written[..|s.written|] == s.written;
    assert s'.db == Replay(db, s'.written);
    hide Replay, Apply, Effect, Lookup, PerIdOrder;
    forall id
      ensures PerIdOrder(owner, s', id)
    {
      WriteOrders(owner, s, s', id);
    }
  }

  lemma WriteOrders(owner: ExecutionId -> Writer, s: State, s': State, id: ExecutionId)
    requires PerIdOrder(owner, s, id) && s.queue != [] && s'.pending == s.pending && s'.issued == s.issued
    requires s'.queue == s.queue[1..] && s'.written == s.written + [s.queue[0]]
    ensures PerIdOrder(owner, s', id)
  {
    OpsForSnoc(id, s.written, s.queue[0]);
    OpsForHead(id, s.queue);
    hide OpsFor;
    var moved := if IdOf(s.queue[0]) == id then [s.queue[0]] else [];
    Regroup(OpsFor(id, s.written), moved, OpsFor(id, s'.queue), PendingFor(owner, s, id));
    assert PendingFor(owner, s', id) == PendingFor(owner, s, id);
  }

  lemma Regroup(a: seq<WriteOp>, b: seq<WriteOp>, c: seq<WriteOp>, d: seq<WriteOp>)
    ensures (a + b) + c + d == a + (b + c) + d == a + b + (c + d)
  {
  }

  lemma {:induction false} RunInv(may: Permission, owner: ExecutionId -> Writer, db: Store, run: seq<State>, i: nat)
    requires OwnedBy(may, owner) && IsRun(may, db, run) && i < |run|
    ensures Inv(owner, db, run[i])
  {
    if i > 0 {
      var s, s' := run[i - 1], run[i];
      RunInv(may, owner, db, run, i - 1);
      assert Next(may, run[i - 1], run[i - 1 + 1]);
      hide Inv, PerIdOrder, Init, Replay, Apply;
      if w, record: ExecutionRecord :| may(w, record.id) && MirrorSave(s, w, record, s') {
        MirrorSaveInv(owner, db, s, record, s');
      } else if w, id :| may(w, id) && MirrorRemove(s, w, id, s') {
        MirrorRemoveInv(owner, db, s, id, s');
      } else if w :| Send(s, w, s') {
        SendInv(owner, db, s, w, s');
      } else {
        WriteInv(owner, db, s, s');
      }
    }
  }

  // ---------- The theorems ----------

  /** Some save or removal of the id went through the sink. */
  predicate Touched(s: State, id: ExecutionId) {
    OpsFor(id, s.issued) != []
  }

  /** At every point of every run, replaying the queue and then the id's pending send over the
      database gives the mirror, for every id that went through the sink. */
  lemma ReplayGivesMirror(may: Permission, owner: ExecutionId -> Writer, db: Store, run: seq<State>, i: nat, id: ExecutionId)
    requires OwnedBy(may, owner) && IsRun(may, db, run) && i < |run| && Touched(run[i], id)
    ensures Lookup(Replay(run[i].db, run[i].queue + PendingFor(owner, run[i], id)), id) == Lookup(run[i].mirror, id)
  {
    RunInv(may, owner, db, run, i);
    hide IsRun, Inv, Replay, Lookup, PendingFor;
    InvReplays(owner, db, run[i], id);
  }

  lemma InvReplays(owner: ExecutionId -> Writer, db: Store, s: State, id: ExecutionId)
    requires Inv(owner, db, s) && Touched(s, id)
    ensures Lookup(Replay(s.db, s.queue + PendingFor(owner, s, id)), id) == Lookup(s.mirror, id)
  {
    var pending := PendingFor(owner, s, id);
    assert PerIdOrder(owner, s, id);
    QueueThenPending(owner, s, id);
    ReplayLookup(s.db, s.queue + pending, id);
    ReplayLookup(db, s.written, id);
    hide Replay, Lookup, OpsFor, PendingFor;
    EffectConcat(None, OpsFor(id, s.written), OpsFor(id, s.queue) + pending);
    EffectConcat(Lookup(db, id), OpsFor(id, s.written), OpsFor(id, s.queue) + pending);
    assert OpsFor(id, s.issued) == OpsFor(id, s.written) + (OpsFor(id, s.queue) + pending);
    TouchedForgets(None, Lookup(db, id), OpsFor(id, s.issued));
  }

  lemma QueueThenPending(owner: ExecutionId -> Writer, s: State, id: ExecutionId)
    ensures OpsFor(id, s.queue + PendingFor(owner, s, id)) == OpsFor(id, s.queue) + PendingFor(owner, s, id)
  {
    var pending := PendingFor(owner, s, id);
    if pending == [] {
      assert s.queue + pending == s.queue;
    } else {
      OpsForSnoc(id, s.queue, pending[0]);
    }
  }

  lemma EffectConcat(before: Option<ExecutionRecord>, a: seq<WriteOp>, b: seq<WriteOp>)
    ensures Effect(before, a + b) == Effect(Effect(before, a), b)
  {
    if b == [] {
      assert a + b == a;
    }
  }

  /** What was there before does not show once there has been an operation. */
  lemma TouchedForgets(x: Option<ExecutionRecord>, y: Option<ExecutionRecord>, ops: seq<WriteOp>)
    requires ops != []
    ensures Effect(x, ops) == Effect(y, ops)
  {
  }

  /** The database sees the operations on an id in the order they were issued, none skipped: an
      earlier save never overwrites a later one. */
  lemma WritesFollowIssueOrder(may: Permission, owner: ExecutionId -> Writer, db: Store, run: seq<State>, i: nat, id: ExecutionId)
    requires OwnedBy(may, owner) && IsRun(may, db, run) && i < |run|
    ensures OpsFor(id, run[i].written) <= OpsFor(id, run[i].issued)
    ensures Lookup(run[i].db, id) == Effect(Lookup(db, id), OpsFor(id, run[i].written))
  {
    RunInv(may, owner, db, run, i);
    assert PerIdOrder(owner, run[i], id);
    ReplayLookup(db, run[i].written, id);
  }

  ghost predicate Quiet(s: State) {
    s.queue == [] && s.pending == map[]
  }

  /** Database and mirror agree on every id that went through the sink. */
  ghost predicate Agrees(s: State) {
    forall id :: Touched(s, id) ==> Lookup(s.db, id) == Lookup(s.mirror, id)
  }

  /** With nothing pending and nothing queued the database agrees with the mirror. */
  lemma QuietSinkIsDurable(may: Permission, owner: ExecutionId -> Writer, db: Store, run: seq<State>, i: nat)
    requires OwnedBy(may, owner) && IsRun(may, db, run) && i < |run| && Quiet(run[i])
    ensures Agrees(run[i])
  {
    hide IsRun, OwnedBy, Touched;
    forall id | Touched(run[i], id)
      ensures Lookup(run[i].db, id) == Lookup(run[i].mirror, id)
    {
      ReplayGivesMirror(may, owner, db, run, i, id);
      assert run[i].queue + PendingFor(owner, run[i], id) == [];
    }
  }

  /** Two writers for one id break it, whatever the database held: the second's save overtakes the
      first's on the channel, and the older record stays in the database. */
  lemma TwoWritersDiverge(may: Permission, db: Store, id: ExecutionId, v: Writer, w: Writer) returns (run: seq<State>)
    requires v != w && may(v, id) && may(w, id)
    ensures IsRun(may, db, run) && Quiet(run[|run| - 1]) && !Agrees(run[|run| - 1])
  {
    var a, b := ExecutionRecord(id, "f", Ongoing), ExecutionRecord(id, "f", Finished);
    var s0 := State(map[], map[], [], db, [], []);
    var s2 := State(map[id := b], map[v := Save(a), w := Save(b)], [], db, [Save(a), Save(b)], []);
    var s4 := s2.(pending := map[], queue := [Save(b), Save(a)]);
    var s6 := s4.(queue := [], db := db[id := b][id := a], written := [Save(b), Save(a)]);
    var s1 := BothMirror(may, s0, a, v, b, w, s2);
    var s3 := SecondSendsFirst(may, s2, v, w, s4);
    var s5 := BothWritten(may, s4, s6);
    OlderIsLeft(s6, a, b);
    run := [s0];
    assert IsRun(may, db, run);
    hide IsRun, Agrees, Quiet;
    run := ExtendTwice(may, db, run, s1, s2);
    run := ExtendTwice(may, db, run, s3, s4);
    run := ExtendTwice(may, db, run, s5, s6);
  }

  lemma ExtendTwice(may: Permission, db: Store, run: seq<State>, mid: State, s: State) returns (run': seq<State>)
    requires run != [] && IsRun(may, db, run) && Next(may, run[|run| - 1], mid) && Next(may, mid, s)
    ensures run' == run + [mid, s] && IsRun(may, db, run')
  {
    hide Next;
    run' := run + [mid, s];
  }

  lemma OlderIsLeft(s: State, older: ExecutionRecord, newer: ExecutionRecord)
    requires older != newer && older.id == newer.id && s.queue == [] && s.pending == map[]
    requires s.issued == [Save(older), Save(newer)] && Lookup(s.mirror, newer.id) == Some(newer)
    requires Lookup(s.db, newer.id) == Some(older)
    ensures Quiet(s) && !Agrees(s)
  {
    assert s.issued == [Save(older)] + [Save(newer)];
    OpsForSnoc(newer.id, [Save(older)], Save(newer));
    assert Touched(s, newer.id);
  }

  lemma BothMirror(may: Permission, s: State, a: ExecutionRecord, v: Writer, b: ExecutionRecord, w: Writer, s': State)
    returns (mid: State)
    requires v != w && a.id == b.id && may(v, a.id) && may(w, b.id) && s.pending == map[]
    requires s' == s.(mirror := s.mirror[b.id := b], pending := map[v := Save(a), w := Save(b)],
                      issued := s.issued + [Save(a), Save(b)])
    ensures Next(may, s, mid) && Next(may, mid, s')
  {
    mid := s.(mirror := s.mirror[a.id := a], pending := s.pending[v := Save(a)], issued := s.issued + [Save(a)]);
    assert MirrorSave(s, v, a, mid);
    assert mid.issued + [Save(b)] == s'.issued && mid.pending[w := Save(b)] == s'.pending;
    assert mid.mirror[b.id := b] == s'.mirror;
    assert MirrorSave(mid, w, b, s');
  }

  lemma SecondSendsFirst(may: Permission, s: State, v: Writer, w: Writer, s': State) returns (mid: State)
    requires v != w && s.pending.Keys == {v, w}
    requires s' == s.(pending := map[], queue := s.queue + [s.pending[w], s.pending[v]])
    ensures Next(may, s, mid) && Next(may, mid, s')
  {
    mid := s.(pending := s.pending - {w}, queue := s.queue + [s.pending[w]]);
    assert Send(s, w, mid);
    assert mid.pending - {v} == map[] && mid.queue + [s.pending[v]] == s'.queue;
    assert Send(mid, v, s');
  }

  lemma BothWritten(may: Permission, s: State, s': State) returns (mid: State)
    requires |s.queue| == 2 && s.written == []
    requires s' == s.(queue := [], db := Apply(Apply(s.db, s.queue[0]), s.queue[1]), written := s.queue)
    ensures Next(may, s, mid) && Next(may, mid, s')
  {
    hide Apply;
    mid := s.(queue := s.queue[1..], db := Apply(s.db, s.queue[0]), written := [s.queue[0]]);
    assert Write(s, mid);
    assert [s.queue[0]] + [s.queue[1]] == s.queue && s.queue[1..][1..] == [];
    assert Write(mid, s');
  }

  /** No execution id has two permitted writers. */
  ghost predicate OneWriterPerId(may: Permission) {
    forall id, v, w :: may(v, id) && may(w, id) ==> v == w
  }

  ghost function SomeWriter(may: Permission, id: ExecutionId): Writer {
    if exists w: Writer :: may(w, id) then var w: Writer :| may(w, id); w else 0
  }

  /** If the run ends quiet, database and mirror agree at its end. */
  ghost predicate EndsDurable(may: Permission, db: Store, run: seq<State>) {
    IsRun(may, db, run) && Quiet(run[|run| - 1]) ==> Agrees(run[|run| - 1])
  }

  /** Every run that ends quiet ends with database and mirror in agreement, exactly when no id has two
      permitted writers. */
  lemma DurableIffOneWriterPerId(may: Permission, db: Store)
    ensures (forall run :: EndsDurable(may, db, run)) <==> OneWriterPerId(may)
  {
    hide IsRun, Quiet, Agrees;
    if OneWriterPerId(may) {
      var owner: ExecutionId -> Writer := id => SomeWriter(may, id);
      forall run
        ensures EndsDurable(may, db, run)
      {
        if IsRun(may, db, run) {
          RunsAreNonEmpty(may, db, run);
          if Quiet(run[|run| - 1]) {
            QuietSinkIsDurable(may, owner, db, run, |run| - 1);
          }
        }
      }
    } else {
      var id, v, w :| may(v, id) && may(w, id) && v != w;
      var run := TwoWritersDiverge(may, db, id, v, w);
      assert !EndsDurable(may, db, run);
    }
  }

  lemma RunsAreNonEmpty(may: Permission, db: Store, run: seq<State>)
    requires IsRun(may, db, run)
    ensures run != []
  {
  }

  // ---------- The sink object ----------

  /** The sink as one caller at a time sees it. */
  class Sink {
    var mirror: Store
    var queue: seq<WriteOp>
    var db: Store
    ghost var touched: set<ExecutionId>

    ghost predicate Valid()
      reads this
    {
      && mirror.Keys <= touched
      && forall id :: id in touched ==> Lookup(Replay(db, queue), id) == Lookup(mirror, id)
    }

    constructor (db: Store)
      ensures Valid() && mirror == map[] && queue == [] && this.db == db && touched == {}
    {
      mirror, queue, touched := map[], [], {};
      this.db := db;
    }

    method Save(record: ExecutionRecord)
      requires Valid()
      modifies this
      ensures Valid() && db == old(db)
      ensures mirror == old(mirror)[record.id := record] && queue == old(queue) + [WriteOp.Save(record)]
      ensures touched == old(touched) + {record.id}
    {
      assert (queue + [WriteOp.Save(record)])[..|queue|] == queue;
      mirror := mirror[record.id := record];
      queue := queue + [WriteOp.Save(record)];
      touched := touched + {record.id};
    }

    method Get(id: ExecutionId) returns (r: Option<ExecutionRecord>)
      requires Valid()
      ensures r == Lookup(mirror, id)
      ensures id in touched ==> r == Lookup(Replay(db, queue), id)
    {
      r := Lookup(mirror, id);
    }

    method Remove(id: ExecutionId) returns (removed: Option<ExecutionRecord>)
      requires Valid()
      modifies this
      ensures Valid() && db == old(db) && touched == old(touched)
      ensures removed == old(Lookup(mirror, id)) && mirror == old(mirror) - {id}
      ensures queue == if removed.Some? then old(queue) + [Delete(id)] else old(queue)
    {
      removed := Lookup(mirror, id);
      if removed.Some? {
        assert (queue + [Delete(id)])[..|queue|] == queue;
        mirror := mirror - {id};
        queue := queue + [Delete(id)];
      } else {
        assert mirror - {id} == mirror;
      }
    }

    /** One turn of the background writer. */
    method WriteOne() returns (wrote: bool)
      requires Valid()
      modifies this
      ensures Valid() && mirror == old(mirror) && touched == old(touched)
      ensures wrote <==> old(queue) != []
      ensures if wrote then queue == old(queue)[1..] && db == Apply(old(db), old(queue)[0])
              else queue == old(queue) && db == old(db)
    {
      wrote := queue != [];
      if wrote {
        ReplayHead(db, queue);
        db := Apply(db, queue[0]);
        queue := queue[1..];
      }
    }
  }

  lemma {:induction false} ReplayHead(db: Store, ops: seq<WriteOp>)
    requires ops != []
    ensures Replay(db, ops) == Replay(Apply(db, ops[0]), ops[1..])
  {
    var n := |ops| - 1;
    if n > 0 {
      ReplayHead(db, ops[..n]);
      assert ops[..n][1..] == ops[1..][..n - 1];
    } else {
      assert ops[..0] == [] && ops[1..] == [];
    }
  }
}
