/** OfflineBuffer: a persistent table used as a bounded FIFO with eviction and acknowledgement. */
module OfflineBuffering {
  import opened Wrappers
  import opened Arithmetic
  import opened TelemetryTypes

  // -------------------------------------------------------------------- the payload

  /** The JSON text of a row: a record with the seven expected members, or text from_json refuses. */
  datatype Payload =
    | Record(uin: string, speed: real, rpm: real, coolant: real, battery: real, gear: string, epochMs: int)
    | Undecodable

  /** A C string: what c_str() hands over ends at the first NUL. */
  function CString(s: string): string {
    if s == "" || s[0] == '\0' then "" else [s[0]] + CString(s[1..])
  }

  /** The writer emits nothing for an infinity or NaN, which leaves text that does not parse. */
  function ToJson(m: TelemetryMsg): Payload {
    if m.speed.Finite? && m.rpm.Finite? && m.coolant.Finite? && m.battery.Finite?
    then
      Record(CString(m.uin), m.speed.r, m.rpm.r, m.coolant.r, m.battery.r, CString(m.gear),
             TruncDiv(m.timestamp, 1_000_000))
    else Undecodable
  }

  /** The message a drained row turns into. */
  function FromJson(p: Payload): Option<TelemetryMsg> {
    match p
    case Record(uin, speed, rpm, coolant, battery, gear, epochMs) =>
      Some(TelemetryMsg(uin, Finite(speed), Finite(rpm), Finite(coolant), Finite(battery), gear,
                        epochMs * 1_000_000, true))
    case Undecodable => None
  }

  predicate AllFinite(m: TelemetryMsg) {
    m.speed.Finite? && m.rpm.Finite? && m.coolant.Finite? && m.battery.Finite?
  }

  predicate NulFree(s: string) {
    forall i :: 0 <= i < |s| ==> s[i] != '\0'
  }

  lemma {:induction false} CStringKeepsIff(s: string)
    ensures CString(s) == s <==> NulFree(s)
  {
    if s != "" && s[0] != '\0' {
      CStringKeepsIff(s[1..]);
      assert s == [s[0]] + s[1..];
      assert NulFree(s) <==> NulFree(s[1..]) by {
        assert forall i :: 0 <= i < |s[1..]| ==> s[1..][i] == s[i + 1];
        assert forall i :: 1 <= i < |s| ==> s[i] == s[1..][i - 1];
      }
    }
  }

  /** A message comes back unchanged, except for its timestamp cut to milliseconds and the from_buffer flag,
      exactly when its numbers are finite and its strings hold no NUL. */
  lemma MessageRoundTripIff(m: TelemetryMsg)
    ensures FromJson(ToJson(m))
            == Some(m.(timestamp := TruncDiv(m.timestamp, 1_000_000) * 1_000_000, fromBuffer := true))
            <==> AllFinite(m) && NulFree(m.uin) && NulFree(m.gear)
  {
    CStringKeepsIff(m.uin);
    CStringKeepsIff(m.gear);
  }

  /** cut is s up to its first NUL, or all of it if there is none. */
  ghost predicate CutAtNul(cut: string, s: string) {
    cut <= s && NulFree(cut) && (|cut| < |s| ==> s[|cut|] == '\0')
  }

  lemma {:induction false} CStringCuts(s: string)
    ensures CutAtNul(CString(s), s)
  {
    if s != "" && s[0] != '\0' {
      CStringCuts(s[1..]);
      assert s == [s[0]] + s[1..];
      assert forall i :: 1 <= i < |CString(s)| ==> CString(s)[i] == CString(s[1..])[i - 1];
    }
  }

  /** What comes back of any message: nothing of one with an infinity or NaN; of every other one all its numbers,
      its strings up to their first NUL, and its time in whole milliseconds. */
  lemma WhatComesBack(m: TelemetryMsg)
    ensures FromJson(ToJson(m)).Some? <==> AllFinite(m)
    ensures AllFinite(m) ==>
              var r := FromJson(ToJson(m)).value;
              && r == m.(uin := r.uin, gear := r.gear, timestamp := r.timestamp, fromBuffer := true)
              && CutAtNul(r.uin, m.uin) && CutAtNul(r.gear, m.gear)
              && r.timestamp % 1_000_000 == 0
              && (if m.timestamp >= 0 then 0 <= m.timestamp - r.timestamp < 1_000_000
                  else -1_000_000 < m.timestamp - r.timestamp <= 0)
  {
    CStringCuts(m.uin);
    CStringCuts(m.gear);
  }

  // ---------------------------------------------------------------------- the table

  datatype Row = Row(id: int, payload: Payload, sent: bool)

  /** The largest row id; AUTOINCREMENT refuses to go beyond it. */
  const MAX_ID := 0x7FFF_FFFF_FFFF_FFFF

  /** Rows in id order, and the largest id ever given out. */
  datatype Table = Table(rows: seq<Row>, lastId: int) {
    ghost predicate Valid() {
      Sorted(rows) && forall i :: 0 <= i < |rows| ==> rows[i].id <= lastId
    }
  }

  ghost predicate Sorted(rows: seq<Row>) {
    forall i, j :: 0 <= i < j < |rows| ==> rows[i].id < rows[j].id
  }

  /** SELECT ... WHERE sent = 0 ORDER BY id. */
  function Pending(rows: seq<Row>): seq<Row> {
    if rows == [] then []
    else
      var rest := Pending(rows[..|rows| - 1]);
      if rows[|rows| - 1].sent then rest else rest + [rows[|rows| - 1]]
  }

  /** DELETE ... WHERE id = ?. */
  function Delete(rows: seq<Row>, id: int): seq<Row> {
    if rows == [] then []
    else
      var rest := Delete(rows[..|rows| - 1], id);
      if rows[|rows| - 1].id == id then rest else rest + [rows[|rows| - 1]]
  }

  /** UPDATE ... SET sent = 1 WHERE id = ?. */
  function Mark(rows: seq<Row>, id: int): (r: seq<Row>)
    ensures |r| == |rows|
  {
    seq(|rows|, i requires 0 <= i < |rows| => if rows[i].id == id then rows[i].(sent := true) else rows[i])
  }

  /** Which statements of a store() fail. */
  datatype StoreFaults = StoreFaults(count: bool, delete: bool, insert: bool)

  /** The delete of the capacity step: the oldest unsent row, if there is one. */
  function Evict(rows: seq<Row>): seq<Row> {
    if Pending(rows) == [] then rows else Delete(rows, Pending(rows)[0].id)
  }

  function MakesRoom(rows: seq<Row>, maxRows: nat, f: StoreFaults): bool {
    (if f.count then 0 else |Pending(rows)|) >= maxRows && !f.delete
  }

  function StoreOk(t: Table, f: StoreFaults): bool {
    !f.insert && t.lastId < MAX_ID
  }

  function Store(t: Table, maxRows: nat, p: Payload, f: StoreFaults): Table {
    var rows := if MakesRoom(t.rows, maxRows, f) then Evict(t.rows) else t.rows;
    if StoreOk(t, f) then Table(rows + [Row(t.lastId + 1, p, false)], t.lastId + 1) else t.(rows := rows)
  }

  /** LIMIT with a size_t that was cast to int64_t: a negative limit is no limit. */
  function Limited(rows: seq<Row>, limit: nat): seq<Row>
    requires limit < 0x1_0000_0000_0000_0000
  {
    if limit > MAX_ID || limit >= |rows| then rows else rows[..limit]
  }

  function Decode(rows: seq<Row>): seq<(int, TelemetryMsg)> {
    if rows == [] then []
    else
      var rest := Decode(rows[..|rows| - 1]);
      var m := FromJson(rows[|rows| - 1].payload);
      if m.None? then rest else rest + [(rows[|rows| - 1].id, m.value)]
  }

  /** How the statement of a drain() goes: it may fail before the first row or after some of them. */
  datatype DrainFault = NoFault | PrepareFails | StopsAfter(rows: nat)

  /** The rows the cursor delivers. */
  function Fetched(rows: seq<Row>, f: DrainFault): seq<Row> {
    match f
    case NoFault => rows
    case PrepareFails => []
    case StopsAfter(n) => if n <= |rows| then rows[..n] else rows
  }

  class OfflineBuffer {
    const maxRows: nat
    var isOpen: bool
    var table: Table

    /** A buffer over an existing or new database file; open() creates the schema if it is missing. */
    constructor (maxRows: nat, existing: Option<Table>)
      requires existing.Some? ==> existing.value.Valid()
      ensures this.maxRows == maxRows && !isOpen && table.Valid()
      ensures table == if existing.Some? then existing.value else Table([], 0)
    {
      this.maxRows := maxRows;
      isOpen := false;
      table := if existing.Some? then existing.value else Table([], 0);
    }

    /** A database that opened stays open even when its schema could not be created. */
    method Open(opens: bool, schemaCreated: bool) returns (ok: bool)
      modifies this`isOpen
      ensures ok == (opens && schemaCreated) && isOpen == opens
    {
      isOpen := opens;
      return opens && schemaCreated;
    }

    method Close()
      modifies this`isOpen
      ensures !isOpen
    {
      isOpen := false;
    }

    method PendingCount(fails: bool) returns (count: nat)
      ensures count == if !isOpen || fails then 0 else |Pending(table.rows)|
    {
      if !isOpen || fails {
        return 0;
      }
      count := 0;
      for i := 0 to |table.rows|
        invariant count == |Pending(table.rows[..i])|
      {
        assert table.rows[..i + 1][..i] == table.rows[..i];
        if !table.rows[i].sent {
          count := count + 1;
        }
      }
      assert table.rows[..|table.rows|] == table.rows;
    }

    method StoreMessage(m: TelemetryMsg, f: StoreFaults) returns (ok: bool)
      modifies this`table
      ensures ok == (isOpen && StoreOk(old(table), f))
      ensures table == if isOpen then Store(old(table), maxRows, ToJson(m), f) else old(table)
    {
      if !isOpen {
        return false;
      }
      var count := PendingCount(f.count);
      if count >= maxRows && !f.delete {
        table := table.(rows := Evict(table.rows));
      }
      var payload := ToJson(m);
      if f.insert || table.lastId >= MAX_ID {
        return false;
      }
      table := Table(table.rows + [Row(table.lastId + 1, payload, false)], table.lastId + 1);
      return true;
    }

    method Drain(limit: nat, f: DrainFault) returns (result: seq<(int, TelemetryMsg)>)
      requires limit < 0x1_0000_0000_0000_0000
      ensures result == if isOpen then Decode(Fetched(Limited(Pending(table.rows), limit), f)) else []
    {
      result := [];
      if !isOpen || f.PrepareFails? {
        return;
      }
      var cursor := Fetched(Limited(Pending(table.rows), limit), f);
      for i := 0 to |cursor|
        invariant result == Decode(cursor[..i])
      {
        assert cursor[..i + 1][..i] == cursor[..i];
        var m := FromJson(cursor[i].payload);
        if m.Some? {
          result := result + [(cursor[i].id, m.value)];
        }
      }
      assert cursor[..|cursor|] == cursor;
    }

    /** Reports success for an id that matches no row, as the statement does. */
    method MarkSent(id: int, fails: bool) returns (ok: bool)
      modifies this`table
      ensures ok == (isOpen && !fails)
      ensures table == if ok then old(table).(rows := Mark(old(table).rows, id)) else old(table)
    {
      if !isOpen || fails {
        return false;
      }
      table := table.(rows := Mark(table.rows, id));
      return true;
    }
  }
}
