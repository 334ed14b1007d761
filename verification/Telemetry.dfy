/**
 The cloud's telemetry table: gateways upload records again until they are acknowledged, and the
 table keeps one row for each local id of a gateway.

 Each INSERT is one statement that may succeed, fail, or take effect while the answer is an error.
 */
module Telemetry {
  import opened Wrappers

  datatype Record = Record(device: string, local_id: int, timestamp: int, payload: string)

  /** A row; rows are never updated or deleted. */
  datatype Row = Row(gateway: string, rec: Record)

  datatype Outcome = Done | Refused | AnswerLost

  /** One INSERT statement with its outcome. */
  datatype Insert = Insert(row: Row, outcome: Outcome)

  predicate SameKey(a: Row, b: Row) {
    a.gateway == b.gateway && a.rec.local_id == b.rec.local_id
  }

  predicate Present(rows: seq<Row>, r: Row) {
    exists i | 0 <= i < |rows| :: SameKey(rows[i], r)
  }

  /** `INSERT … ON CONFLICT (gateway_id, local_id) DO NOTHING` */
  function InsertRow(rows: seq<Row>, r: Row): seq<Row> {
    if Present(rows, r) then rows else rows + [r]
  }

  function Execute(rows: seq<Row>, ins: Insert): seq<Row> {
    if ins.outcome.Refused? then rows else InsertRow(rows, ins.row)
  }

  /** The statements of any uploads, in the order in which the database executes them. */
  function Run(rows: seq<Row>, inserts: seq<Insert>): seq<Row>
    decreases |inserts|
  {
    if inserts == [] then rows else Run(Execute(rows, inserts[0]), inserts[1..])
  }

  /** The statements of one upload. */
  function Statements(gateway: string, records: seq<Record>, outcomes: seq<Outcome>): (r: seq<Insert>)
    requires |outcomes| == |records|
    ensures |r| == |records| && forall i | 0 <= i < |r| :: r[i] == Insert(Row(gateway, records[i]), outcomes[i])
  {
    seq(|records|, i requires 0 <= i < |records| => Insert(Row(gateway, records[i]), outcomes[i]))
  }

  /** The ids of the statements that succeeded. */
  function Acknowledged(inserts: seq<Insert>): seq<int> {
    if inserts == [] then []
    else (if inserts[0].outcome.Done? then [inserts[0].row.rec.local_id] else []) + Acknowledged(inserts[1..])
  }

  lemma OneStatement(rows: seq<Row>, inserts: seq<Insert>, i: nat)
    requires i < |inserts|
    ensures Run(rows, inserts[i..]) == Run(Execute(rows, inserts[i]), inserts[i + 1..])
    ensures Acknowledged(inserts[i..]) ==
            (if inserts[i].outcome.Done? then [inserts[i].row.rec.local_id] else []) + Acknowledged(inserts[i + 1..])
  {
    assert inserts[i..][1..] == inserts[i + 1..];
  }

  class TelemetryStore {
    var rows: seq<Row>

    constructor ()
      ensures rows == []
    {
      rows := [];
    }

    method Exec(ins: Insert) returns (failed: bool)
      modifies this
      ensures rows == Execute(old(rows), ins) && (failed <==> !ins.outcome.Done?)
    {
      if !ins.outcome.Refused? {
        var present := false;
        for i := 0 to |rows|
          invariant rows == old(rows)
          invariant present <==> Present(rows[..i], ins.row)
        {
          assert rows[..i + 1] == rows[..i] + [rows[i]];
          if SameKey(rows[i], ins.row) {
            assert rows[..i + 1][i] == rows[i];
            present := true;
          }
        }
        assert rows[..|rows|] == rows;
        if !present {
          rows := rows + [ins.row];
        }
      }
      failed := !ins.outcome.Done?;
    }

    /** An upload acknowledges the records whose statement succeeded, and goes on after the others. */
    method UploadTelemetry(gateway: string, records: seq<Record>, outcomes: seq<Outcome>) returns (accepted: seq<int>)
      requires |outcomes| == |records|
      modifies this
      ensures rows == Run(old(rows), Statements(gateway, records, outcomes))
      ensures accepted == Acknowledged(Statements(gateway, records, outcomes))
    {
      accepted := [];
      ghost var all := Statements(gateway, records, outcomes);
      for i := 0 to |records|
        invariant |all| == |records| && all == Statements(gateway, records, outcomes)
        invariant Run(old(rows), all) == Run(rows, all[i..])
        invariant Acknowledged(all) == accepted + Acknowledged(all[i..])
      {
        OneStatement(rows, all, i);
        var failed := Exec(Insert(Row(gateway, records[i]), outcomes[i]));
        if failed {
          continue;
        }
        accepted := accepted + [records[i].local_id];
      }
    }
  }

  // ---- What holds over every history ----

  ghost predicate OnePerKey(rows: seq<Row>) {
    forall i, j | 0 <= i < j < |rows| :: !SameKey(rows[i], rows[j])
  }

  /** The row stored under a key. */
  function Stored(rows: seq<Row>, gateway: string, id: int): (r: Option<Row>)
  {
    if rows == [] then None
    else if rows[0].gateway == gateway && rows[0].rec.local_id == id then Some(rows[0])
    else Stored(rows[1..], gateway, id)
  }

  /** The first statement for a key that took effect, acknowledged or not. */
  function FirstApplied(inserts: seq<Insert>, gateway: string, id: int): Option<Row> {
    if inserts == [] then None
    else if !inserts[0].outcome.Refused? && inserts[0].row.gateway == gateway && inserts[0].row.rec.local_id == id
    then Some(inserts[0].row)
    else FirstApplied(inserts[1..], gateway, id)
  }

  lemma {:induction false} StoredAppend(rows: seq<Row>, more: seq<Row>, gateway: string, id: int)
    ensures Stored(rows + more, gateway, id) ==
            if Stored(rows, gateway, id).Some? then Stored(rows, gateway, id) else Stored(more, gateway, id)
  {
    if rows == [] {
      assert rows + more == more;
    } else {
      assert (rows + more)[1..] == rows[1..] + more;
      StoredAppend(rows[1..], more, gateway, id);
    }
  }

  lemma {:induction false} StoredPresent(rows: seq<Row>, r: Row)
    ensures Present(rows, r) <==> Stored(rows, r.gateway, r.rec.local_id).Some?
  {
    if rows != [] {
      StoredPresent(rows[1..], r);
      assert rows == [rows[0]] + rows[1..];
      if Present(rows[1..], r) {
        var i :| 0 <= i < |rows[1..]| && SameKey(rows[1..][i], r);
        assert rows[i + 1] == rows[1..][i];
      }
      if Present(rows, r) && !SameKey(rows[0], r) {
        var i :| 0 <= i < |rows| && SameKey(rows[i], r);
        assert rows[1..][i - 1] == rows[i];
      }
    }
  }

  /**
   After any history, whatever was uploaded twice, retried or answered with an error, the row under
   a key is the one stored before or else that of the first statement that took effect.
   */
  lemma {:induction false} FirstWins(rows: seq<Row>, inserts: seq<Insert>, gateway: string, id: int)
    ensures Stored(Run(rows, inserts), gateway, id) ==
            if Stored(rows, gateway, id).Some? then Stored(rows, gateway, id) else FirstApplied(inserts, gateway, id)
    decreases |inserts|
  {
    if inserts != [] {
      var ins := inserts[0];
      FirstWins(Execute(rows, ins), inserts[1..], gateway, id);
      StoredPresent(rows, ins.row);
      StoredAppend(rows, [ins.row], gateway, id);
    }
  }

  /** There is at most one row for each key. */
  lemma {:induction false} OnePerKeyAlways(rows: seq<Row>, inserts: seq<Insert>)
    requires OnePerKey(rows)
    ensures OnePerKey(Run(rows, inserts))
    decreases |inserts|
  {
    if inserts != [] {
      OnePerKeyAlways(Execute(rows, inserts[0]), inserts[1..]);
    }
  }

  /** Rows stay where they are, with what they hold. */
  lemma {:induction false} RowsStay(rows: seq<Row>, inserts: seq<Insert>)
    ensures rows <= Run(rows, inserts)
    decreases |inserts|
  {
    if inserts != [] {
      RowsStay(Execute(rows, inserts[0]), inserts[1..]);
    }
  }

  lemma {:induction false} RunAppend(rows: seq<Row>, a: seq<Insert>, b: seq<Insert>)
    ensures Run(rows, a + b) == Run(Run(rows, a), b)
    decreases |a|
  {
    if a == [] {
      assert a + b == b;
    } else {
      assert (a + b)[1..] == a[1..] + b;
      RunAppend(Execute(rows, a[0]), a[1..], b);
    }
  }

  lemma {:induction false} SomeApplied(inserts: seq<Insert>, i: nat)
    requires i < |inserts| && !inserts[i].outcome.Refused?
    ensures FirstApplied(inserts, inserts[i].row.gateway, inserts[i].row.rec.local_id).Some?
  {
    if i > 0 {
      SomeApplied(inserts[1..], i - 1);
    }
  }

  /** An acknowledged id has a row, from the statement that acknowledged it on and for ever. */
  lemma AcknowledgedIsStored(rows: seq<Row>, inserts: seq<Insert>, i: nat, later: seq<Insert>)
    requires i < |inserts| && inserts[i].outcome.Done?
    ensures var r := inserts[i].row;
            && Stored(Run(rows, inserts), r.gateway, r.rec.local_id).Some?
            && Stored(Run(rows, inserts + later), r.gateway, r.rec.local_id) ==
               Stored(Run(rows, inserts), r.gateway, r.rec.local_id)
  {
    var r := inserts[i].row;
    SomeApplied(inserts, i);
    FirstWins(rows, inserts, r.gateway, r.rec.local_id);
    RunAppend(rows, inserts, later);
    FirstWins(Run(rows, inserts), later, r.gateway, r.rec.local_id);
  }

  /** What an upload reports as accepted was acknowledged by one of its statements, and the other way round. */
  lemma {:induction false} AcceptedIds(inserts: seq<Insert>, id: int)
    ensures id in Acknowledged(inserts) <==>
            exists i | 0 <= i < |inserts| :: inserts[i].outcome.Done? && inserts[i].row.rec.local_id == id
  {
    if inserts != [] {
      AcceptedIds(inserts[1..], id);
      if i :| 0 <= i < |inserts| && inserts[i].outcome.Done? && inserts[i].row.rec.local_id == id {
        assert i > 0 ==> inserts[1..][i - 1] == inserts[i];
      }
      if i :| 0 <= i < |inserts[1..]| && inserts[1..][i].outcome.Done? && inserts[1..][i].row.rec.local_id == id {
        assert inserts[i + 1] == inserts[1..][i];
      }
    }
  }

  /** Every id an upload accepts has exactly one row of that gateway, and keeps it whatever is uploaded later. */
  lemma AcceptedForEver(rows: seq<Row>, gateway: string, records: seq<Record>, outcomes: seq<Outcome>, id: int,
                        later: seq<Insert>)
    requires |outcomes| == |records| && OnePerKey(rows)
    requires id in Acknowledged(Statements(gateway, records, outcomes))
    ensures var after := Run(rows, Statements(gateway, records, outcomes));
            && Stored(after, gateway, id).Some? && OnePerKey(Run(after, later))
            && Stored(Run(after, later), gateway, id) == Stored(after, gateway, id)
  {
    var s := Statements(gateway, records, outcomes);
    AcceptedIds(s, id);
    var i :| 0 <= i < |s| && s[i].outcome.Done? && s[i].row.rec.local_id == id;
    AcknowledgedIsStored(rows, s, i, later);
    RunAppend(rows, s, later);
    OnePerKeyAlways(rows, s);
    OnePerKeyAlways(Run(rows, s), later);
  }

  /** Sending again what is stored already changes nothing, whatever it holds now. */
  lemma {:induction false} ResendChangesNothing(rows: seq<Row>, inserts: seq<Insert>)
    requires forall i | 0 <= i < |inserts| :: Stored(rows, inserts[i].row.gateway, inserts[i].row.rec.local_id).Some?
    ensures Run(rows, inserts) == rows
  {
    if inserts != [] {
      StoredPresent(rows, inserts[0].row);
      assert forall i | 0 <= i < |inserts[1..]| :: inserts[1..][i] == inserts[i + 1];
      ResendChangesNothing(rows, inserts[1..]);
    }
  }

  /** A retry of statements that all took effect leaves the table as it was, also when others came in between. */
  lemma RetryChangesNothing(rows: seq<Row>, inserts: seq<Insert>, between: seq<Insert>, again: seq<Insert>)
    requires forall i | 0 <= i < |again| ::
               exists k | 0 <= k < |inserts| :: !inserts[k].outcome.Refused? && SameKey(inserts[k].row, again[i].row)
    ensures Run(rows, inserts + between + again) == Run(rows, inserts + between)
  {
    var before := inserts + between;
    RunAppend(rows, before, again);
    forall i | 0 <= i < |again|
      ensures Stored(Run(rows, before), again[i].row.gateway, again[i].row.rec.local_id).Some?
    {
      var k :| 0 <= k < |inserts| && !inserts[k].outcome.Refused? && SameKey(inserts[k].row, again[i].row);
      assert before[k] == inserts[k];
      SomeApplied(before, k);
      FirstWins(rows, before, again[i].row.gateway, again[i].row.rec.local_id);
    }
    ResendChangesNothing(Run(rows, before), again);
  }

  /**
   An acknowledged record is stored with its own contents exactly if the first statement for its id
   that took effect carried the same contents: a reused id is acknowledged and dropped.
   */
  lemma OwnContentsStored(inserts: seq<Insert>, i: nat)
    requires i < |inserts| && inserts[i].outcome.Done?
    ensures var r := inserts[i].row;
            Stored(Run([], inserts), r.gateway, r.rec.local_id) == Some(r) <==>
            forall k | 0 <= k < i && !inserts[k].outcome.Refused? && SameKey(inserts[k].row, r) &&
                       (forall j | 0 <= j < k :: inserts[j].outcome.Refused? || !SameKey(inserts[j].row, r)) ::
                           inserts[k].row == r
  {
    var r := inserts[i].row;
    FirstWins([], inserts, r.gateway, r.rec.local_id);
    var k := FirstIndex(inserts, i);
  }

  /** Where the first statement for the id of statement `i` is that took effect. */
  lemma {:induction false} FirstIndex(inserts: seq<Insert>, i: nat) returns (k: nat)
    requires i < |inserts| && !inserts[i].outcome.Refused?
    ensures k <= i && !inserts[k].outcome.Refused? && SameKey(inserts[k].row, inserts[i].row)
    ensures forall j | 0 <= j < k :: inserts[j].outcome.Refused? || !SameKey(inserts[j].row, inserts[i].row)
    ensures FirstApplied(inserts, inserts[i].row.gateway, inserts[i].row.rec.local_id) == Some(inserts[k].row)
  {
    if !inserts[0].outcome.Refused? && SameKey(inserts[0].row, inserts[i].row) {
      k := 0;
    } else {
      var k' := FirstIndex(inserts[1..], i - 1);
      assert forall j | 0 < j < |inserts| :: inserts[1..][j - 1] == inserts[j];
      k := k' + 1;
    }
  }

  /** A local id used again with other contents: both uploads are acknowledged, the second is dropped. */
  lemma ReusedIdDropped(gateway: string, a: Record, b: Record)
    requires a.local_id == b.local_id && a != b
    ensures var inserts := Statements(gateway, [a, b], [Done, Done]);
            && Acknowledged(inserts) == [a.local_id, b.local_id] && Run([], inserts) == [Row(gateway, a)]
            && Stored(Run([], inserts), gateway, b.local_id) != Some(Row(gateway, b))
  {
    var inserts := Statements(gateway, [a, b], [Done, Done]);
    assert inserts[1..] == [inserts[1]] && inserts[1..][1..] == [];
    var first := Row(gateway, a);
    assert !Present([], first) && Execute([], inserts[0]) == [first];
    assert SameKey([first][0], inserts[1].row);
    assert Execute([first], inserts[1]) == [first];
    assert Run([first], [inserts[1]]) == [first];
    assert Acknowledged([inserts[1]]) == [b.local_id] + Acknowledged([]);
  }
}
