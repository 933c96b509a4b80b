/** OfflineBuffer refines a simple bounded queue, for any interleaving of calls, ids and failures. */
module BufferRefinement {
  import opened Wrappers
  import opened TelemetryTypes
  import opened OfflineBuffering

  // -------------------------------------------------------- the table's three queries

  lemma PendingSnoc(rows: seq<Row>, row: Row)
    ensures Pending(rows + [row]) == if row.sent then Pending(rows) else Pending(rows) + [row]
  {
    assert (rows + [row])[..|rows|] == rows;
  }

  lemma {:induction false} PendingIsIn(rows: seq<Row>)
    ensures forall r :: r in Pending(rows) <==> r in rows && !r.sent
  {
    if rows != [] {
      var n := |rows| - 1;
      PendingIsIn(rows[..n]);
      assert rows == rows[..n] + [rows[n]];
    }
  }

  lemma {:induction false} PendingSorted(rows: seq<Row>)
    requires Sorted(rows)
    ensures Sorted(Pending(rows))
  {
    if rows != [] {
      var n := |rows| - 1;
      PendingSorted(rows[..n]);
      PendingIsIn(rows[..n]);
      var p := Pending(rows[..n]);
      forall i | 0 <= i < |p|
        ensures p[i].id < rows[n].id
      {
        assert p[i] in rows[..n];
      }
    }
  }

  lemma {:induction false} DeleteIsIn(rows: seq<Row>, id: int)
    ensures forall r :: r in Delete(rows, id) <==> r in rows && r.id != id
  {
    if rows != [] {
      var n := |rows| - 1;
      DeleteIsIn(rows[..n], id);
      assert rows == rows[..n] + [rows[n]];
    }
  }

  lemma {:induction false} DeleteSorted(rows: seq<Row>, id: int)
    requires Sorted(rows)
    ensures Sorted(Delete(rows, id))
  {
    if rows != [] {
      var n := |rows| - 1;
      DeleteSorted(rows[..n], id);
      DeleteIsIn(rows[..n], id);
      var d := Delete(rows[..n], id);
      forall i | 0 <= i < |d|
        ensures d[i].id < rows[n].id
      {
        assert d[i] in rows[..n];
      }
    }
  }

  lemma {:induction false} PendingOfDelete(rows: seq<Row>, id: int)
    ensures Pending(Delete(rows, id)) == Delete(Pending(rows), id)
  {
    if rows != [] {
      var n := |rows| - 1;
      PendingOfDelete(rows[..n], id);
      PendingSnoc(Delete(rows[..n], id), rows[n]);
      DeleteSnoc(Pending(rows[..n]), rows[n], id);
    }
  }

  lemma DeleteSnoc(rows: seq<Row>, row: Row, id: int)
    ensures Delete(rows + [row], id) == if row.id == id then Delete(rows, id) else Delete(rows, id) + [row]
  {
    assert (rows + [row])[..|rows|] == rows;
  }

  lemma {:induction false} PendingOfMark(rows: seq<Row>, id: int)
    ensures Pending(Mark(rows, id)) == Delete(Pending(rows), id)
  {
    if rows != [] {
      var n := |rows| - 1;
      PendingOfMark(rows[..n], id);
      assert Mark(rows, id)[..n] == Mark(rows[..n], id);
      DeleteSnoc(Pending(rows[..n]), rows[n], id);
    }
  }

  /** In a sorted list without the id nothing is deleted, and deleting the first id drops the first row. */
  lemma {:induction false} DeleteAbsent(rows: seq<Row>, id: int)
    requires forall r :: r in rows ==> r.id != id
    ensures Delete(rows, id) == rows
  {
    if rows != [] {
      var n := |rows| - 1;
      DeleteAbsent(rows[..n], id);
      assert rows[n] in rows && rows == rows[..n] + [rows[n]];
    }
  }

  lemma {:induction false} DeleteFirst(rows: seq<Row>)
    requires rows != [] && Sorted(rows)
    ensures Delete(rows, rows[0].id) == rows[1..]
  {
    var n := |rows| - 1;
    if n == 0 {
      assert Delete(rows[..0], rows[0].id) == [];
    } else {
      DeleteFirst(rows[..n]);
      assert rows[1..] == rows[..n][1..] + [rows[n]];
    }
  }

  // ------------------------------------------------------------- the abstract queue

  /** A queue of (id, payload), the acknowledged ids, and the ids dropped to make room. */
  datatype Queue = Queue(items: seq<Row>, acked: set<int>, evicted: set<int>, lastId: int)

  function IdSet(rows: seq<Row>): set<int> {
    set r | r in rows :: r.id
  }

  /** The two halves of a store on the queue. */
  function DropOldest(q: Queue): Queue
    requires q.items != []
  {
    q.(items := q.items[1..], evicted := q.evicted + {q.items[0].id})
  }

  function Append(q: Queue, p: Payload): Queue {
    q.(items := q.items + [Row(q.lastId + 1, p, false)], lastId := q.lastId + 1)
  }

  /** store(): drops the oldest item when full, then appends under a new id. */
  function Enqueue(q: Queue, maxRows: nat, p: Payload, f: StoreFaults): Queue {
    var full := (if f.count then 0 else |q.items|) >= maxRows && !f.delete && q.items != [];
    var q' := if full then DropOldest(q) else q;
    if f.insert || q.lastId >= MAX_ID then q' else Append(q', p)
  }

  /** mark_sent(): moves an item to the acknowledged ids; any other id is ignored. */
  function Acknowledge(q: Queue, id: int): Queue {
    if id in IdSet(q.items) then q.(items := Delete(q.items, id), acked := q.acked + {id}) else q
  }

  /** drain(): looks at the oldest items and changes nothing. */
  function Peek(q: Queue, limit: nat): seq<(int, TelemetryMsg)>
    requires limit < 0x1_0000_0000_0000_0000
  {
    Decode(if limit >= |q.items| then q.items else q.items[..limit])
  }

  // ------------------------------------------------------------------- the refinement

  function Acked(rows: seq<Row>): set<int> {
    set r | r in rows && r.sent :: r.id
  }

  /** The table implements the queue. */
  ghost predicate Implements(t: Table, q: Queue) {
    && t.Valid()
    && q.items == Pending(t.rows)
    && q.acked == Acked(t.rows)
    && q.lastId == t.lastId
  }

  lemma UniqueIds(rows: seq<Row>, a: Row, b: Row)
    requires Sorted(rows) && a in rows && b in rows && a.id == b.id
    ensures a == b
  {
  }

  lemma EvictRefines(t: Table)
    requires t.Valid() && Pending(t.rows) != []
    ensures t.(rows := Evict(t.rows)).Valid()
    ensures Pending(Evict(t.rows)) == Pending(t.rows)[1..]
    ensures Acked(Evict(t.rows)) == Acked(t.rows)
  {
    var oldest := Pending(t.rows)[0];
    PendingIsIn(t.rows);
    PendingSorted(t.rows);
    PendingOfDelete(t.rows, oldest.id);
    DeleteFirst(Pending(t.rows));
    DeleteSorted(t.rows, oldest.id);
    DeleteIsIn(t.rows, oldest.id);
    assert oldest in Pending(t.rows);
    forall r | r in t.rows && r.sent
      ensures r.id != oldest.id
    {
      if r.id == oldest.id {
        UniqueIds(t.rows, r, oldest);
      }
    }
    var d := Delete(t.rows, oldest.id);
    assert forall i :: 0 <= i < |d| ==> d[i] in t.rows;
  }

  lemma AppendRefines(t: Table, q: Queue, p: Payload)
    requires Implements(t, q)
    ensures Implements(Table(t.rows + [Row(t.lastId + 1, p, false)], t.lastId + 1), Append(q, p))
  {
    var row := Row(t.lastId + 1, p, false);
    PendingSnoc(t.rows, row);
    AckedSnoc(t.rows, row);
  }

  lemma StoreRefines(t: Table, q: Queue, maxRows: nat, p: Payload, f: StoreFaults)
    requires Implements(t, q)
    ensures Implements(Store(t, maxRows, p, f), Enqueue(q, maxRows, p, f))
  {
    hide Acked, Pending;
    if MakesRoom(t.rows, maxRows, f) && Pending(t.rows) != [] {
      EvictRefines(t);
      AppendRefines(t.(rows := Evict(t.rows)), DropOldest(q), p);
    } else {
      AppendRefines(t, q, p);
    }
  }

  lemma AckedSnoc(rows: seq<Row>, row: Row)
    requires !row.sent
    ensures Acked(rows + [row]) == Acked(rows)
  {
  }

  lemma MarkRefines(t: Table, q: Queue, id: int)
    requires Implements(t, q)
    ensures Implements(t.(rows := Mark(t.rows, id)), Acknowledge(q, id))
  {
    hide Pending, Acked, IdSet;
    PendingOfMark(t.rows, id);
    MarkAcked(t.rows, id);
    MarkValid(t, id);
    KnownIds(t.rows, id);
    if id !in IdSet(q.items) {
      AbsentId(Pending(t.rows), id);
      DeleteAbsent(Pending(t.rows), id);
      assert Acked(t.rows) + {} == Acked(t.rows);
    }
  }

  lemma MarkValid(t: Table, id: int)
    requires t.Valid()
    ensures t.(rows := Mark(t.rows, id)).Valid()
  {
    var m := Mark(t.rows, id);
    assert forall i :: 0 <= i < |m| ==> m[i].id == t.rows[i].id;
  }

  lemma AbsentId(rows: seq<Row>, id: int)
    requires id !in IdSet(rows)
    ensures forall r :: r in rows ==> r.id != id
  {
    forall r | r in rows
      ensures r.id != id
    {
      assert r.id in IdSet(rows);
    }
  }

  /** Every row is pending or acknowledged. */
  lemma KnownIds(rows: seq<Row>, id: int)
    ensures id in IdSet(rows) <==> id in IdSet(Pending(rows)) || id in Acked(rows)
    ensures id in Acked(rows) ==> Acked(rows) + {id} == Acked(rows)
  {
    PendingIsIn(rows);
    if r :| r in rows && r.id == id {
      assert r in Pending(rows) || r.sent;
    }
  }

  lemma MarkAcked(rows: seq<Row>, id: int)
    ensures Acked(Mark(rows, id)) == Acked(rows) + if id in IdSet(rows) then {id} else {}
  {
    var m := Mark(rows, id);
    forall x | x in Acked(m)
      ensures x in Acked(rows) + if id in IdSet(rows) then {id} else {}
    {
      var i :| 0 <= i < |m| && m[i].sent && m[i].id == x;
      assert rows[i] in rows;
    }
    forall x | x in Acked(rows) + if id in IdSet(rows) then {id} else {}
      ensures x in Acked(m)
    {
      var i :| 0 <= i < |rows| && rows[i].id == x && (x == id || rows[i].sent);
      assert m[i] in m;
    }
  }

  // ------------------------------------------------------------------------- runs

  datatype Op = StoreOp(m: TelemetryMsg, f: StoreFaults) | DrainOp(limit: nat) | MarkOp(id: int) | FailedOp

  function TableStep(t: Table, maxRows: nat, op: Op): Table {
    match op
    case StoreOp(m, f) => Store(t, maxRows, ToJson(m), f)
    case MarkOp(id) => t.(rows := Mark(t.rows, id))
    case _ => t
  }

  function QueueStep(q: Queue, maxRows: nat, op: Op): Queue {
    match op
    case StoreOp(m, f) => Enqueue(q, maxRows, ToJson(m), f)
    case MarkOp(id) => Acknowledge(q, id)
    case _ => q
  }

  function TableAfter(t: Table, maxRows: nat, ops: seq<Op>): Table {
    if ops == [] then t else TableStep(TableAfter(t, maxRows, ops[..|ops| - 1]), maxRows, ops[|ops| - 1])
  }

  function QueueAfter(q: Queue, maxRows: nat, ops: seq<Op>): Queue {
    if ops == [] then q else QueueStep(QueueAfter(q, maxRows, ops[..|ops| - 1]), maxRows, ops[|ops| - 1])
  }

  function QueueOf(t: Table): Queue {
    Queue(Pending(t.rows), Acked(t.rows), {}, t.lastId)
  }

  /** From any table, under any interleaving of calls, the table keeps implementing the queue. */
  lemma {:induction false} BufferRefinesQueue(t: Table, maxRows: nat, ops: seq<Op>)
    requires t.Valid()
    ensures Implements(TableAfter(t, maxRows, ops), QueueAfter(QueueOf(t), maxRows, ops))
  {
    if ops != [] {
      hide Implements, Store, Enqueue, Acknowledge, Mark;
      var n := |ops| - 1;
      BufferRefinesQueue(t, maxRows, ops[..n]);
      var t', q' := TableAfter(t, maxRows, ops[..n]), QueueAfter(QueueOf(t), maxRows, ops[..n]);
      match ops[n]
      case StoreOp(m, f) => StoreRefines(t', q', maxRows, ToJson(m), f);
      case MarkOp(id) => MarkRefines(t', q', id);
      case _ =>
    }
  }

  /** What a caller can observe after any run is what the queue shows: the pending count, and the result of a
      drain with any size_t limit, also one that becomes negative as an int64_t. */
  lemma ObservationsAgree(t: Table, maxRows: nat, ops: seq<Op>, limit: nat)
    requires t.Valid() && limit < 0x1_0000_0000_0000_0000
    ensures var rows := TableAfter(t, maxRows, ops).rows;
            var q := QueueAfter(QueueOf(t), maxRows, ops);
            && |Pending(rows)| == |q.items|
            && (|q.items| < 0x8000_0000_0000_0000 ==> Decode(Limited(Pending(rows), limit)) == Peek(q, limit))
  {
    hide Decode;
    BufferRefinesQueue(t, maxRows, ops);
  }

  // --------------------------------------------------------------- what became of an id

  /** Every id the table started with or gave out is exactly one of pending, acknowledged and evicted, and the
      pending ones are in increasing order. */
  ghost predicate Ledger(start: Table, q: Queue) {
    && Sorted(q.items)
    && start.lastId <= q.lastId
    && (forall id :: (if id in IdSet(q.items) then 1 else 0) + (if id in q.acked then 1 else 0)
                     + (if id in q.evicted then 1 else 0)
                     == if id in IdSet(start.rows) || start.lastId < id <= q.lastId then 1 else 0)
  }

  lemma LedgerStart(t: Table)
    requires t.Valid()
    ensures Ledger(t, QueueOf(t))
  {
    PendingSorted(t.rows);
    PendingIsIn(t.rows);
    forall id
      ensures !(id in IdSet(Pending(t.rows)) && id in Acked(t.rows))
    {
      if id in IdSet(Pending(t.rows)) && id in Acked(t.rows) {
        var a :| a in Pending(t.rows) && a.id == id;
        var b :| b in t.rows && b.sent && b.id == id;
        UniqueIds(t.rows, a, b);
      }
      KnownIds(t.rows, id);
    }
    forall id
      ensures id in IdSet(t.rows) <==> id in IdSet(Pending(t.rows)) || id in Acked(t.rows)
    {
      KnownIds(t.rows, id);
    }
  }

  lemma IdSetSnoc(rows: seq<Row>, row: Row)
    ensures IdSet(rows + [row]) == IdSet(rows) + {row.id}
  {
  }

  lemma IdSetRest(rows: seq<Row>)
    requires rows != [] && Sorted(rows)
    ensures IdSet(rows[1..]) == IdSet(rows) - {rows[0].id}
    ensures rows[0].id in IdSet(rows)
  {
    var rest := rows[1..];
    assert forall i :: 0 <= i < |rest| ==> rest[i] == rows[i + 1];
    forall r | r in rows
      ensures r.id == rows[0].id || r in rest
    {
      var i :| 0 <= i < |rows| && rows[i] == r;
      if i > 0 {
        assert rest[i - 1] == r;
      }
    }
  }

  lemma IdSetDelete(rows: seq<Row>, id: int)
    ensures IdSet(Delete(rows, id)) == IdSet(rows) - {id}
  {
    DeleteIsIn(rows, id);
  }

  lemma DropKeepsLedger(start: Table, q: Queue)
    requires Ledger(start, q) && q.items != []
    ensures Ledger(start, DropOldest(q))
  {
    IdSetRest(q.items);
  }

  lemma AppendKeepsLedger(start: Table, q: Queue, p: Payload)
    requires start.Valid() && Ledger(start, q)
    ensures Ledger(start, Append(q, p))
  {
    var row := Row(q.lastId + 1, p, false);
    IdSetSnoc(q.items, row);
    forall i | 0 <= i < |q.items|
      ensures q.items[i].id <= q.lastId
    {
      assert q.items[i].id in IdSet(q.items);
    }
  }

  lemma AcknowledgeKeepsLedger(start: Table, q: Queue, id: int)
    requires Ledger(start, q)
    ensures Ledger(start, Acknowledge(q, id))
  {
    IdSetDelete(q.items, id);
    DeleteSorted(q.items, id);
  }

  lemma {:induction false} EveryIdIsAccountedFor(t: Table, maxRows: nat, ops: seq<Op>)
    requires t.Valid()
    ensures Ledger(t, QueueAfter(QueueOf(t), maxRows, ops))
  {
    hide Ledger;
    if ops == [] {
      LedgerStart(t);
    } else {
      var n := |ops| - 1;
      EveryIdIsAccountedFor(t, maxRows, ops[..n]);
      var q := QueueAfter(QueueOf(t), maxRows, ops[..n]);
      match ops[n]
      case StoreOp(m, f) =>
        var full := (if f.count then 0 else |q.items|) >= maxRows && !f.delete && q.items != [];
        var q' := if full then DropOldest(q) else q;
        if full {
          DropKeepsLedger(t, q);
        }
        AppendKeepsLedger(t, q', ToJson(m));
      case MarkOp(id) => AcknowledgeKeepsLedger(t, q, id);
      case _ =>
    }
  }

  /** An id is evicted only by a store, and only while it is the smallest pending id. */
  lemma OnlyTheOldestIsEvicted(t: Table, maxRows: nat, ops: seq<Op>, op: Op, id: int)
    requires t.Valid()
    requires var q := QueueAfter(QueueOf(t), maxRows, ops);
             id in QueueStep(q, maxRows, op).evicted && id !in q.evicted
    ensures var pending := Pending(TableAfter(t, maxRows, ops).rows);
            && op.StoreOp?
            && (exists r :: r in pending && r.id == id)
            && (forall r :: r in pending ==> id <= r.id)
  {
    BufferRefinesQueue(t, maxRows, ops);
    EveryIdIsAccountedFor(t, maxRows, ops);
    var q := QueueAfter(QueueOf(t), maxRows, ops);
    assert q.items[0] in q.items;
  }

  // ------------------------------------------------------------------ drain and capacity

  predicate Decodable(row: Row) {
    row.payload.Record?
  }

  lemma {:induction false} DecodeLength(rows: seq<Row>)
    ensures |Decode(rows)| <= |rows|
    ensures |Decode(rows)| == |rows| <==> forall r :: r in rows ==> Decodable(r)
  {
    if rows != [] {
      var n := |rows| - 1;
      DecodeLength(rows[..n]);
      assert rows == rows[..n] + [rows[n]];
      assert rows[n] in rows && forall r :: r in rows[..n] ==> r in rows;
      assert Decodable(rows[n]) <==> FromJson(rows[n].payload).Some?;
    }
  }

  lemma {:induction false} DecodeOrder(rows: seq<Row>)
    requires Sorted(rows)
    ensures forall i, j :: 0 <= i < j < |Decode(rows)| ==> Decode(rows)[i].0 < Decode(rows)[j].0
    ensures forall d :: d in Decode(rows) <==> exists r :: r in rows && FromJson(r.payload) == Some(d.1) && d.0 == r.id
  {
    if rows != [] {
      var n := |rows| - 1;
      DecodeOrder(rows[..n]);
      assert rows == rows[..n] + [rows[n]];
      var rest := Decode(rows[..n]);
      forall i | 0 <= i < |rest|
        ensures rest[i].0 < rows[n].id
      {
        assert rest[i] in rest;
      }
    }
  }

  /** drain(limit): the decodable ones among the oldest min(limit, pending) rows, in strictly increasing id
      order; it returns that many results exactly when all of those rows decode. */
  lemma DrainReturnsTheOldest(t: Table, limit: nat)
    requires t.Valid() && limit < 0x1_0000_0000_0000_0000 && |Pending(t.rows)| < 0x8000_0000_0000_0000
    ensures var pending := Pending(t.rows);
            var n := if limit <= |pending| then limit else |pending|;
            var result := Decode(Limited(pending, limit));
            && (forall i, j :: 0 <= i < j < |result| ==> result[i].0 < result[j].0)
            && (forall d :: d in result
                  <==> exists r :: r in pending[..n] && FromJson(r.payload) == Some(d.1) && d.0 == r.id)
            && (|result| == n <==> forall r :: r in pending[..n] ==> Decodable(r))
  {
    var pending := Pending(t.rows);
    var n := if limit <= |pending| then limit else |pending|;
    assert Limited(pending, limit) == pending[..n];
    PendingSorted(t.rows);
    DecodeOrder(pending[..n]);
    DecodeLength(pending[..n]);
  }

  lemma {:induction false} DecodePrefix(rows: seq<Row>, n: nat)
    requires n <= |rows|
    ensures Decode(rows[..n]) <= Decode(rows)
  {
    if n < |rows| {
      DecodePrefix(rows[..|rows| - 1], n);
      assert rows[..|rows| - 1][..n] == rows[..n];
    } else {
      assert rows[..n] == rows;
    }
  }

  /** A drain that fails on the way returns the first results of the one that does not: all that come of the rows
      before the failure, and nothing else. */
  lemma FaultyDrainIsAPrefix(rows: seq<Row>, f: DrainFault)
    ensures Decode(Fetched(rows, f)) <= Decode(rows)
    ensures f.StopsAfter? && f.rows <= |rows| ==> Decode(Fetched(rows, f)) == Decode(rows[..f.rows])
    ensures f == NoFault ==> Decode(Fetched(rows, f)) == Decode(rows)
    ensures f == PrepareFails ==> Decode(Fetched(rows, f)) == []
  {
    match f
    case NoFault =>
    case PrepareFails => DecodePrefix(rows, 0);
    case StopsAfter(n) => DecodePrefix(rows, if n <= |rows| then n else |rows|);
  }

  // -------------------------------------------------------------------- undecodable rows

  /** A row is still pending, or its id was acknowledged or evicted. */
  ghost predicate Kept(q: Queue, r: Row) {
    r in q.items || r.id in q.acked || r.id in q.evicted
  }

  lemma StepKeeps(q: Queue, maxRows: nat, op: Op, r: Row)
    requires Kept(q, r)
    ensures Kept(QueueStep(q, maxRows, op), r)
  {
    match op
    case StoreOp(m, f) =>
      if q.items != [] && r in q.items && r != q.items[0] {
        assert r in q.items[1..];
      }
    case MarkOp(id) => DeleteIsIn(q.items, id);
    case _ =>
  }

  lemma {:induction false} RunKeeps(q: Queue, maxRows: nat, ops: seq<Op>, r: Row)
    requires Kept(q, r)
    ensures Kept(QueueAfter(q, maxRows, ops), r)
  {
    if ops != [] {
      RunKeeps(q, maxRows, ops[..|ops| - 1], r);
      StepKeeps(QueueAfter(q, maxRows, ops[..|ops| - 1]), maxRows, ops[|ops| - 1], r);
    }
  }

  /** A pending row that does not decode stays pending, over any run, until its id is acknowledged or evicted,
      and no drain, of any limit and with any fault, ever returns it. */
  lemma UndecodableRowIsStuck(t: Table, maxRows: nat, ops: seq<Op>, r: Row, limit: nat, f: DrainFault)
    requires t.Valid() && r in Pending(t.rows) && !Decodable(r)
    requires limit < 0x1_0000_0000_0000_0000
    ensures var pending := Pending(TableAfter(t, maxRows, ops).rows);
            var q := QueueAfter(QueueOf(t), maxRows, ops);
            && (r in pending || r.id in q.acked || r.id in q.evicted)
            && forall d :: d in Decode(Fetched(Limited(pending, limit), f)) ==> d.0 != r.id
  {
    hide Ledger, Decode, QueueAfter, TableAfter, Pending, Fetched, Limited, Acked, IdSet, Decodable;
    var q := QueueAfter(QueueOf(t), maxRows, ops);
    var pending := Pending(TableAfter(t, maxRows, ops).rows);
    RunKeeps(QueueOf(t), maxRows, ops, r);
    BufferRefinesQueue(t, maxRows, ops);
    EveryIdIsAccountedFor(t, maxRows, ops);
    LedgerExcludes(t, q, r.id);
    LimitedIsAPrefix(pending, limit, f);
    NotAmongDecoded(pending, r, |Limited(pending, limit)|);
  }

  lemma LedgerExcludes(start: Table, q: Queue, id: int)
    requires Ledger(start, q)
    ensures Sorted(q.items) && (id in q.acked || id in q.evicted ==> id !in IdSet(q.items))
  {
  }

  lemma LimitedIsAPrefix(rows: seq<Row>, limit: nat, f: DrainFault)
    requires limit < 0x1_0000_0000_0000_0000
    ensures Limited(rows, limit) <= rows
    ensures forall d :: d in Decode(Fetched(Limited(rows, limit), f)) ==> d in Decode(rows[..|Limited(rows, limit)|])
  {
    hide Decode, Fetched;
    FaultyDrainIsAPrefix(Limited(rows, limit), f);
    assert rows[..|Limited(rows, limit)|] == Limited(rows, limit);
  }

  lemma NotAmongDecoded(pending: seq<Row>, r: Row, n: nat)
    requires Sorted(pending) && !Decodable(r) && n <= |pending|
    requires r in pending || r.id !in IdSet(pending)
    ensures forall d :: d in Decode(pending[..n]) ==> d.0 != r.id
  {
    DecodeOrder(pending[..n]);
    forall d | d in Decode(pending[..n])
      ensures d.0 != r.id
    {
      var row :| row in pending[..n] && FromJson(row.payload) == Some(d.1) && d.0 == row.id;
      assert row in pending;
      if row.id == r.id {
        UniqueIds(pending, row, r);
      }
    }
  }

  /** Undecodable rows at the head block a drain: it is empty, though rows are pending, exactly when the oldest
      min(limit, pending) of them do not decode. */
  lemma DrainIsEmptyIff(t: Table, limit: nat)
    requires t.Valid() && limit < 0x1_0000_0000_0000_0000 && |Pending(t.rows)| < 0x8000_0000_0000_0000
    ensures var pending := Pending(t.rows);
            var n := if limit <= |pending| then limit else |pending|;
            Decode(Limited(pending, limit)) == [] <==> forall r :: r in pending[..n] ==> !Decodable(r)
  {
    DrainReturnsTheOldest(t, limit);
    var pending := Pending(t.rows);
    var n := if limit <= |pending| then limit else |pending|;
    var result := Decode(Limited(pending, limit));
    if result != [] {
      var d := result[0];
      assert d in result;
      var r :| r in pending[..n] && FromJson(r.payload) == Some(d.1) && d.0 == r.id;
      assert Decodable(r);
    }
    forall r | r in pending[..n] && Decodable(r)
      ensures result != []
    {
      var d := (r.id, FromJson(r.payload).value);
      assert d in result;
    }
  }

  // ---------------------------------------------------------------------------- capacity

  function Max(a: nat, b: nat): nat {
    if a >= b then a else b
  }

  /** A store whose count and delete succeed leaves at most max(previous, max_rows, 1) rows pending. */
  lemma StoreBound(t: Table, maxRows: nat, p: Payload, f: StoreFaults)
    requires t.Valid() && !f.count && !f.delete
    ensures |Pending(Store(t, maxRows, p, f).rows)| <= Max(|Pending(t.rows)|, Max(maxRows, 1))
  {
    BufferRefinesQueue(t, maxRows, []);
    StoreRefines(t, QueueOf(t), maxRows, p, f);
  }

  /** The ceiling max(1, max_rows) is kept over every run that starts within it. */
  lemma {:induction false} CapacityIsKept(t: Table, maxRows: nat, ops: seq<Op>)
    requires t.Valid() && |Pending(t.rows)| <= Max(maxRows, 1)
    requires forall i :: 0 <= i < |ops| && ops[i].StoreOp? ==> !ops[i].f.count && !ops[i].f.delete
    ensures |Pending(TableAfter(t, maxRows, ops).rows)| <= Max(maxRows, 1)
  {
    if ops != [] {
      hide Pending, Store, Mark, Implements;
      var n := |ops| - 1;
      CapacityIsKept(t, maxRows, ops[..n]);
      BufferRefinesQueue(t, maxRows, ops[..n]);
      var t' := TableAfter(t, maxRows, ops[..n]);
      ImplementsValid(t', QueueAfter(QueueOf(t), maxRows, ops[..n]));
      match ops[n]
      case StoreOp(m, f) => StoreBound(t', maxRows, ToJson(m), f);
      case MarkOp(id) =>
        PendingOfMark(t'.rows, id);
        DeleteShrinks(Pending(t'.rows), id);
      case _ =>
    }
  }

  lemma ImplementsValid(t: Table, q: Queue)
    requires Implements(t, q)
    ensures t.Valid()
  {
  }

  lemma {:induction false} DeleteShrinks(rows: seq<Row>, id: int)
    ensures |Delete(rows, id)| <= |rows|
  {
    if rows != [] {
      DeleteShrinks(rows[..|rows| - 1], id);
    }
  }
}
