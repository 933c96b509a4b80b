/** What a user of the offline buffer can rely on over any run: what is stored comes back until it is acknowledged
    or evicted, what is acknowledged never does, and nothing is evicted below the ceiling. */
module BufferGuarantees {
  import opened Wrappers
  import opened Arithmetic
  import opened TelemetryTypes
  import opened OfflineBuffering
  import opened BufferRefinement

  // ------------------------------------------------------------------------- eviction

  /** A step evicts exactly when it is a store that finds max_rows items or more, or cannot count them and the
      ceiling is 0, and its delete works and there is an item. */
  lemma EvictsIff(q: Queue, maxRows: nat, op: Op)
    requires forall r :: r in q.items ==> r.id !in q.evicted
    ensures QueueStep(q, maxRows, op).evicted != q.evicted
            <==> && op.StoreOp? && !op.f.delete && q.items != []
                 && (if op.f.count then maxRows == 0 else |q.items| >= maxRows)
  {
    if q.items != [] {
      assert q.items[0] in q.items;
    }
  }

  function Stores(ops: seq<Op>): nat {
    if ops == [] then 0 else Stores(ops[..|ops| - 1]) + if ops[|ops| - 1].StoreOp? then 1 else 0
  }

  lemma StepGrows(q: Queue, maxRows: nat, op: Op)
    ensures |QueueStep(q, maxRows, op).items| <= |q.items| + if op.StoreOp? then 1 else 0
  {
    if op.MarkOp? {
      DeleteShrinks(q.items, op.id);
    }
  }

  lemma {:induction false} NoEviction(q: Queue, maxRows: nat, ops: seq<Op>)
    requires q.evicted == {} && |q.items| + Stores(ops) <= maxRows
    ensures var q' := QueueAfter(q, maxRows, ops);
            q'.evicted == {} && |q'.items| <= |q.items| + Stores(ops)
  {
    if ops != [] {
      hide QueueStep;
      var n := |ops| - 1;
      NoEviction(q, maxRows, ops[..n]);
      EvictsIff(QueueAfter(q, maxRows, ops[..n]), maxRows, ops[n]);
      StepGrows(QueueAfter(q, maxRows, ops[..n]), maxRows, ops[n]);
    }
  }

  /** Within its capacity the buffer loses nothing: while the pending rows and the stores together do not exceed
      max_rows, no row is evicted, and whatever was pending is pending or acknowledged. */
  lemma NothingLostWithinCapacity(t: Table, maxRows: nat, ops: seq<Op>)
    requires t.Valid() && |Pending(t.rows)| + Stores(ops) <= maxRows
    ensures var q := QueueAfter(QueueOf(t), maxRows, ops);
            && q.evicted == {}
            && forall r :: r in Pending(t.rows) ==>
                 r in Pending(TableAfter(t, maxRows, ops).rows) || r.id in q.acked
  {
    NoEviction(QueueOf(t), maxRows, ops);
    BufferRefinesQueue(t, maxRows, ops);
    forall r | r in Pending(t.rows)
      ensures Kept(QueueAfter(QueueOf(t), maxRows, ops), r)
    {
      RunKeeps(QueueOf(t), maxRows, ops, r);
    }
  }

  // ------------------------------------------------------------------ settled for good

  lemma IdIn(rows: seq<Row>, r: Row)
    requires r in rows
    ensures r.id in IdSet(rows)
  {
  }

  /** An id that was given out and is no longer pending never is again. */
  lemma {:induction false} GoneStays(q: Queue, maxRows: nat, ops: seq<Op>, id: int)
    requires id <= q.lastId && id !in IdSet(q.items)
    ensures var q' := QueueAfter(q, maxRows, ops); id <= q'.lastId && id !in IdSet(q'.items)
  {
    if ops != [] {
      hide QueueStep, IdSet;
      var n := |ops| - 1;
      GoneStays(q, maxRows, ops[..n], id);
      GoneStep(QueueAfter(q, maxRows, ops[..n]), maxRows, ops[n], id);
    }
  }

  lemma GoneStep(q: Queue, maxRows: nat, op: Op, id: int)
    requires id <= q.lastId && id !in IdSet(q.items)
    ensures var q' := QueueStep(q, maxRows, op); id <= q'.lastId && id !in IdSet(q'.items)
  {
    AbsentId(q.items, id);
    if op.MarkOp? {
      DeleteIsIn(q.items, op.id);
    }
  }

  /** A marked id is pending no more, if it ever was. */
  lemma {:induction false} MarkedIsGone(q: Queue, maxRows: nat, ops: seq<Op>, i: nat, id: int)
    requires i < |ops| && ops[i] == MarkOp(id) && id <= QueueAfter(q, maxRows, ops[..i]).lastId
    ensures id !in IdSet(QueueAfter(q, maxRows, ops).items)
  {
    hide QueueStep, IdSet;
    var n := |ops| - 1;
    if i < n {
      assert ops[..n][..i] == ops[..i];
      MarkedIsGone(q, maxRows, ops[..n], i, id);
      LastIdGrows(q, maxRows, ops[..n], i);
      GoneStep(QueueAfter(q, maxRows, ops[..n]), maxRows, ops[n], id);
    } else {
      MarkStep(QueueAfter(q, maxRows, ops[..n]), maxRows, id);
    }
  }

  lemma MarkStep(q: Queue, maxRows: nat, id: int)
    ensures id !in IdSet(QueueStep(q, maxRows, MarkOp(id)).items)
  {
    DeleteIsIn(q.items, id);
  }

  lemma {:induction false} LastIdGrows(q: Queue, maxRows: nat, ops: seq<Op>, i: nat)
    requires i <= |ops|
    ensures QueueAfter(q, maxRows, ops[..i]).lastId <= QueueAfter(q, maxRows, ops).lastId
  {
    if i < |ops| {
      var n := |ops| - 1;
      assert ops[..n][..i] == ops[..i];
      LastIdGrows(q, maxRows, ops[..n], i);
    } else {
      assert ops[..i] == ops;
    }
  }

  /** An id is acknowledged only by being marked. */
  lemma {:induction false} AcknowledgedByMark(q: Queue, maxRows: nat, ops: seq<Op>, id: int)
    requires id !in q.acked && id in QueueAfter(q, maxRows, ops).acked
    ensures MarkOp(id) in ops
  {
    var n := |ops| - 1;
    if id in QueueAfter(q, maxRows, ops[..n]).acked {
      AcknowledgedByMark(q, maxRows, ops[..n], id);
    } else {
      assert ops[n] == MarkOp(id);
    }
  }

  /** What is acknowledged is never replayed: after a mark_sent of an id that was given out, no drain of any later
      state, with any limit and fault, returns the id. */
  lemma AcknowledgedStaysGone(t: Table, maxRows: nat, ops: seq<Op>, i: nat, id: int, limit: nat, f: DrainFault)
    requires t.Valid() && i < |ops| && ops[i] == MarkOp(id) && limit < 0x1_0000_0000_0000_0000
    requires id <= t.lastId
    ensures forall d :: d in Decode(Fetched(Limited(Pending(TableAfter(t, maxRows, ops).rows), limit), f)) ==> d.0 != id
  {
    hide QueueAfter, TableAfter, Pending, Acked, IdSet, Decode, Fetched, Limited;
    var pending := Pending(TableAfter(t, maxRows, ops).rows);
    BufferRefinesQueue(t, maxRows, ops);
    LastIdGrows(QueueOf(t), maxRows, ops[..i], 0);
    StartOf(QueueOf(t), maxRows, ops[..i]);
    MarkedIsGone(QueueOf(t), maxRows, ops, i, id);
    LimitedIsAPrefix(pending, limit, f);
    ImplementsSorted(TableAfter(t, maxRows, ops), QueueAfter(QueueOf(t), maxRows, ops));
    OnlyPendingDecoded(pending, |Limited(pending, limit)|, id);
  }

  lemma StartOf(q: Queue, maxRows: nat, ops: seq<Op>)
    ensures QueueAfter(q, maxRows, ops[..0]) == q
  {
  }

  lemma ImplementsSorted(t: Table, q: Queue)
    requires Implements(t, q)
    ensures Sorted(Pending(t.rows)) && q.items == Pending(t.rows)
  {
    PendingSorted(t.rows);
  }

  lemma OnlyPendingDecoded(pending: seq<Row>, n: nat, id: int)
    requires Sorted(pending) && n <= |pending| && id !in IdSet(pending)
    ensures forall d :: d in Decode(pending[..n]) ==> d.0 != id
  {
    DecodeOrder(pending[..n]);
    forall d | d in Decode(pending[..n])
      ensures d.0 != id
    {
      var row :| row in pending[..n] && FromJson(row.payload) == Some(d.1) && d.0 == row.id;
      IdIn(pending, row);
    }
  }

  // ----------------------------------------------------------------- store, then drain

  /** What comes back of a message. */
  function Replayed(m: TelemetryMsg): TelemetryMsg {
    m.(timestamp := TruncDiv(m.timestamp, 1_000_000) * 1_000_000, fromBuffer := true)
  }

  lemma StoreAppends(t: Table, maxRows: nat, m: TelemetryMsg, f: StoreFaults)
    requires t.Valid() && !f.insert && t.lastId < 0x7FFF_FFFF_FFFF_FFFF
    ensures var t1 := Store(t, maxRows, ToJson(m), f);
            && t1.Valid() && t1.lastId == t.lastId + 1
            && Row(t.lastId + 1, ToJson(m), false) in Pending(t1.rows)
  {
    hide Implements, Store, Enqueue, ToJson, Pending, Acked;
    BufferRefinesQueue(t, maxRows, []);
    StoreRefines(t, QueueOf(t), maxRows, ToJson(m), f);
    EnqueueAppends(QueueOf(t), maxRows, ToJson(m), f);
    ImplementsParts(Store(t, maxRows, ToJson(m), f), Enqueue(QueueOf(t), maxRows, ToJson(m), f));
  }

  lemma EnqueueAppends(q: Queue, maxRows: nat, p: Payload, f: StoreFaults)
    requires !f.insert && q.lastId < 0x7FFF_FFFF_FFFF_FFFF
    ensures var q' := Enqueue(q, maxRows, p, f);
            q'.lastId == q.lastId + 1 && Row(q.lastId + 1, p, false) in q'.items
  {
  }

  lemma ImplementsParts(t: Table, q: Queue)
    requires Implements(t, q)
    ensures t.Valid() && q.items == Pending(t.rows) && q.lastId == t.lastId
  {
  }

  /** A message stored in any state is the next id's, and a drain in any later state that reaches to the end of
      the queue returns it, changed only in its flag and the fraction of its milliseconds, if and only if the id
      was neither marked as sent nor evicted since. */
  lemma StoredComesBackIff(
    t: Table, maxRows: nat, m: TelemetryMsg, f: StoreFaults, ops: seq<Op>, limit: nat)
    requires t.Valid() && !f.insert && t.lastId < 0x7FFF_FFFF_FFFF_FFFF
    requires AllFinite(m) && NulFree(m.uin) && NulFree(m.gear)
    requires limit < 0x1_0000_0000_0000_0000
    ensures var t1 := Store(t, maxRows, ToJson(m), f);
            var pending := Pending(TableAfter(t1, maxRows, ops).rows);
            var id := t.lastId + 1;
            limit >= |pending| ==>
              ((id, Replayed(m)) in Decode(Limited(pending, limit))
               <==> MarkOp(id) !in ops && id !in QueueAfter(QueueOf(t1), maxRows, ops).evicted)
  {
    hide QueueAfter, TableAfter, Pending, Acked, IdSet, Decode, Store, ToJson, FromJson, Ledger;
    MessageRoundTripIff(m);
    StoreAppends(t, maxRows, m, f);
    var t1 := Store(t, maxRows, ToJson(m), f);
    StoredRowComesBackIff(t1, maxRows, ops, Row(t.lastId + 1, ToJson(m), false), Replayed(m));
  }

  lemma StoredRowComesBackIff(t1: Table, maxRows: nat, ops: seq<Op>, r: Row, m: TelemetryMsg)
    requires t1.Valid() && r in Pending(t1.rows) && r.id == t1.lastId && FromJson(r.payload) == Some(m)
    ensures (r.id, m) in Decode(Pending(TableAfter(t1, maxRows, ops).rows))
            <==> MarkOp(r.id) !in ops && r.id !in QueueAfter(QueueOf(t1), maxRows, ops).evicted
  {
    hide QueueAfter, TableAfter, Pending, Acked, IdSet, Decode, FromJson, Ledger;
    var q := QueueAfter(QueueOf(t1), maxRows, ops);
    var pending := Pending(TableAfter(t1, maxRows, ops).rows);
    RunKeeps(QueueOf(t1), maxRows, ops, r);
    BufferRefinesQueue(t1, maxRows, ops);
    ImplementsSorted(TableAfter(t1, maxRows, ops), q);
    EveryIdIsAccountedFor(t1, maxRows, ops);
    LedgerExcludes(t1, q, r.id);
    DecodeOrder(pending);
    FreshIsNotAcked(t1, r);
    if r in pending {
      IdIn(pending, r);
    }
    if r.id in q.acked {
      AcknowledgedByMark(QueueOf(t1), maxRows, ops, r.id);
    }
    if MarkOp(r.id) in ops {
      var i :| 0 <= i < |ops| && ops[i] == MarkOp(r.id);
      StartOf(QueueOf(t1), maxRows, ops[..i]);
      LastIdGrows(QueueOf(t1), maxRows, ops[..i], 0);
      MarkedIsGone(QueueOf(t1), maxRows, ops, i, r.id);
    }
    if (r.id, m) in Decode(pending) {
      var row :| row in pending && FromJson(row.payload) == Some(m) && r.id == row.id;
      IdIn(pending, row);
    }
  }

  lemma FreshIsNotAcked(t: Table, r: Row)
    requires t.Valid() && r in Pending(t.rows)
    ensures r.id !in Acked(t.rows)
  {
    PendingIsIn(t.rows);
    if r.id in Acked(t.rows) {
      var s :| s in t.rows && s.sent && s.id == r.id;
      UniqueIds(t.rows, r, s);
    }
  }

  /** Ids stay within what SQLite gives out. */
  lemma {:induction false} IdsEnd(t: Table, maxRows: nat, ops: seq<Op>)
    requires t.lastId < 0x8000_0000_0000_0000
    ensures TableAfter(t, maxRows, ops).lastId < 0x8000_0000_0000_0000
  {
    if ops != [] {
      IdsEnd(t, maxRows, ops[..|ops| - 1]);
    }
  }
}
