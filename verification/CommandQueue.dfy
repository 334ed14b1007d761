/**
 Commands for gateways: a gateway fetches its pending commands, which are then marked as delivered
 one by one, and reports results later.

 Every SQL statement is a step of its own.  Calls of any number of gateways interleave, and a
 statement that changes a row may fail.
 */
module CommandQueue {
  import opened Sequences

  /** A gateway may report any text as a status, also the two texts the server itself uses. */
  datatype Status = Pending | Delivered | Other(text: string)

  datatype Row = Row(gateway: string, device: string, payload: string, created: int, status: Status, result: string)

  /** The rows by command id, the primary key. */
  type Table = map<string, Row>

  const LIMIT := 20

  // ---- Statements ----

  function PendingOf(t: Table, gateway: string): set<string> {
    set id | id in t && t[id].gateway == gateway && t[id].status == Pending
  }

  /** `SELECT … ORDER BY created_at LIMIT limit`: ties come in any order. */
  ghost predicate Selects(t: Table, gateway: string, ids: seq<string>, limit: nat) {
    SelectsFrom(t, PendingOf(t, gateway), ids, limit)
  }

  /** The same for the rows of a set: up to `limit` of them, no other older than one selected. */
  ghost predicate SelectsFrom(t: Table, rows: set<string>, ids: seq<string>, limit: nat) {
    && rows <= t.Keys && NoDup(ids) && (forall i | 0 <= i < |ids| :: ids[i] in rows)
    && |ids| == (if limit <= |rows| then limit else |rows|)
    && (forall i, j | 0 <= i < j < |ids| :: t[ids[i]].created <= t[ids[j]].created)
    && (forall i, id | 0 <= i < |ids| && id in rows && id !in ids :: t[ids[i]].created <= t[id].created)
  }

  /** What the loop over the rows gets: the source takes a broken connection for the end of the rows. */
  ghost predicate Fetches(t: Table, gateway: string, ids: seq<string>) {
    exists all | Selects(t, gateway, all, LIMIT) :: ids <= all
  }

  /** `UPDATE commands SET status = 'delivered' … WHERE command_id = id` */
  function MarkRow(t: Table, id: string): Table {
    if id in t then t[id := t[id].(status := Delivered)] else t
  }

  function ReportRow(t: Table, gateway: string, id: string, status: Status, result: string): Table {
    if id in t && t[id].gateway == gateway then t[id := t[id].(status := status, result := result)] else t
  }

  /** The marks of one call; `applied` says which statements take effect. */
  function Marked(t: Table, ids: seq<string>, applied: seq<bool>): Table
    requires |applied| == |ids|
    decreases |ids|
  {
    if ids == [] then t else Marked(if applied[0] then MarkRow(t, ids[0]) else t, ids[1..], applied[1..])
  }

  /** A command whose mark took effect is delivered; nothing else changes. */
  lemma {:induction false} MarkedRows(t: Table, ids: seq<string>, applied: seq<bool>)
    requires |applied| == |ids|
    ensures Marked(t, ids, applied).Keys == t.Keys
    ensures forall id | id in t ::
              Marked(t, ids, applied)[id] == if exists i | 0 <= i < |ids| :: ids[i] == id && applied[i]
                  then t[id].(status := Delivered) else t[id]
    decreases |ids|
  {
    if ids != [] {
      var next := if applied[0] then MarkRow(t, ids[0]) else t;
      MarkedRows(next, ids[1..], applied[1..]);
      forall id | id in t ensures (exists i | 0 <= i < |ids| :: ids[i] == id && applied[i]) <==>
                                  || (ids[0] == id && applied[0])
                                  || exists i | 0 <= i < |ids[1..]| :: ids[1..][i] == id && applied[1..][i] {
        if i :| 0 <= i < |ids| && ids[i] == id && applied[i] {
          assert i > 0 ==> ids[1..][i - 1] == id && applied[1..][i - 1];
        }
        if i :| 0 <= i < |ids[1..]| && ids[1..][i] == id && applied[1..][i] {
          assert ids[i + 1] == id && applied[i + 1];
        }
      }
    }
  }

  // ---- The calls ----

  datatype Command = Command(id: string, device: string, payload: string)

  /** What the driver answers: an error, or rows, of which one may be unreadable. */
  datatype Reply = QueryFailed | Rows(ids: seq<string>, unreadable: set<int>)

  datatype Answer = Failed | Commands(commands: seq<Command>)

  class CommandStore {
    var table: Table

    constructor (table: Table)
      ensures this.table == table
    {
      this.table := table;
    }

    /** The commands of the rows fetched, in their order, after one attempt to mark each; no mark on an error. */
    method CheckCommands(gateway: string, reply: Reply, applied: seq<bool>) returns (r: Answer)
      requires reply.Rows? ==> Fetches(table, gateway, reply.ids) && |applied| == |reply.ids|
      modifies this
      ensures r.Failed? <==> reply.QueryFailed? || exists i | 0 <= i < |reply.ids| :: i in reply.unreadable
      ensures r.Failed? ==> table == old(table)
      ensures r.Commands? ==> table == Marked(old(table), reply.ids, applied)
      ensures r.Commands? ==> |r.commands| == |reply.ids|
      ensures r.Commands? ==> forall i | 0 <= i < |reply.ids| && reply.ids[i] in old(table) ::
                var row := old(table)[reply.ids[i]]; r.commands[i] == Command(reply.ids[i], row.device, row.payload)
    {
      if reply.QueryFailed? {
        return Failed;
      }
      var commands: seq<Command>, commandIDs: seq<string> := [], [];
      for i := 0 to |reply.ids|
        invariant table == old(table) && |commands| == i && commandIDs == reply.ids[..i]
        invariant forall k | 0 <= k < i :: k !in reply.unreadable
        invariant forall k | 0 <= k < i && reply.ids[k] in table ::
                  commands[k] == Command(reply.ids[k], table[reply.ids[k]].device, table[reply.ids[k]].payload)
      {
        if i in reply.unreadable {
          return Failed;
        }
        var id := reply.ids[i];
        FetchedIsPending(table, gateway, reply.ids, i);
        commands := commands + [Command(id, table[id].device, table[id].payload)];
        commandIDs := commandIDs + [id];
      }
      assert commandIDs == reply.ids;
      MarkEach(commandIDs, applied);
      r := Commands(commands);
    }

    method MarkEach(ids: seq<string>, applied: seq<bool>)
      requires |applied| == |ids|
      modifies this
      ensures table == Marked(old(table), ids, applied)
    {
      for i := 0 to |ids|
        invariant Marked(old(table), ids, applied) == Marked(table, ids[i..], applied[i..])
      {
        assert ids[i..][1..] == ids[i + 1..] && applied[i..][1..] == applied[i + 1..];
        if applied[i] {
          Mark(ids[i]);
        }
      }
    }

    method Mark(id: string)
      modifies this
      ensures table == MarkRow(old(table), id)
    {
      if id in table {
        table := table[id := table[id].(status := Delivered)];
      }
    }

    /** The status the gateway gives, for its own commands only. */
    method ReportCommandResult(gateway: string, id: string, status: Status, result: string, applied: bool)
      modifies this
      ensures table == if applied then ReportRow(old(table), gateway, id, status, result) else old(table)
      ensures table.Keys == old(table).Keys
      ensures forall k | k in table :: var row := old(table)[k];
                table[k] == if applied && k == id && row.gateway == gateway
                            then Row(gateway, row.device, row.payload, row.created, status, result) else row
    {
      if applied && id in table && table[id].gateway == gateway {
        table := table[id := table[id].(status := status, result := result)];
      }
    }
  }

  lemma FetchedIsPending(t: Table, gateway: string, ids: seq<string>, i: nat)
    requires Fetches(t, gateway, ids) && i < |ids|
    ensures ids[i] in PendingOf(t, gateway)
  {
    var all :| Selects(t, gateway, all, LIMIT) && ids <= all;
    assert all[i] == ids[i];
    assert all[i] in all;
  }

  // ---- Calls one after the other ----

  /** The marks of a call that all take effect. */
  function MarkAll(t: Table, ids: seq<string>): Table {
    Marked(t, ids, seq(|ids|, i => true))
  }

  lemma MarkAllRows(t: Table, ids: seq<string>)
    ensures MarkAll(t, ids).Keys == t.Keys
    ensures forall id | id in t :: MarkAll(t, ids)[id] == if id in ids then t[id].(status := Delivered) else t[id]
  {
    MarkedRows(t, ids, seq(|ids|, i => true));
  }

  lemma PendingAfter(t: Table, gateway: string, ids: seq<string>)
    ensures PendingOf(MarkAll(t, ids), gateway) == PendingOf(t, gateway) - set id | id in ids
  {
    MarkAllRows(t, ids);
  }

  /** Two selects, the second after the marks of the first, are one select with the limits added. */
  lemma SelectsCompose(t: Table, gateway: string, a: seq<string>, m: nat, b: seq<string>, n: nat)
    requires Selects(t, gateway, a, m) && Selects(MarkAll(t, a), gateway, b, n)
    ensures Selects(t, gateway, a + b, m + n)
  {
    MarkAllRows(t, a);
    PendingAfter(t, gateway, a);
    assert SelectsFrom(t, PendingOf(t, gateway) - (set id | id in a), b, n);
    SelectsAppend(t, PendingOf(t, gateway), a, m, b, n);
  }

  lemma SelectsAppend(t: Table, rows: set<string>, a: seq<string>, m: nat, b: seq<string>, n: nat)
    requires SelectsFrom(t, rows, a, m) && SelectsFrom(t, rows - (set id | id in a), b, n)
    ensures SelectsFrom(t, rows, a + b, m + n)
  {
    var taken := set id | id in a;
    Distinct(a);
    assert taken <= rows;
    assert |rows - taken| == |rows| - |a|;
    forall i, j | 0 <= i < j < |a + b|
      ensures (a + b)[i] != (a + b)[j] && t[(a + b)[i]].created <= t[(a + b)[j]].created
    {
      if i < |a| <= j {
        assert b[j - |a|] in rows - taken;
      }
    }
  }

  lemma {:induction false} Distinct(ids: seq<string>)
    requires NoDup(ids)
    ensures |set id | id in ids| == |ids|
  {
    if ids != [] {
      Distinct(ids[1..]);
      assert (set id | id in ids) == (set id | id in ids[1..]) + {ids[0]};
    }
  }

  /** The results of calls one after the other, whose marks all take effect. */
  ghost predicate InTurn(t: Table, gateway: string, results: seq<seq<string>>)
    decreases |results|
  {
    results == [] || (Selects(t, gateway, results[0], LIMIT) && InTurn(MarkAll(t, results[0]), gateway, results[1..]))
  }

  /** So many calls return what one select with so many times the limit would. */
  lemma {:induction false} CallsInTurn(t: Table, gateway: string, results: seq<seq<string>>)
    requires InTurn(t, gateway, results)
    ensures Selects(t, gateway, Concat(results), 20 * |results|)
    decreases |results|
  {
    if results != [] {
      CallsInTurn(MarkAll(t, results[0]), gateway, results[1..]);
      SelectsCompose(t, gateway, results[0], LIMIT, Concat(results[1..]), LIMIT * |results[1..]|);
    }
  }

  /** No command twice, and none before an older one. */
  ghost predicate InOrder(t: Table, ids: seq<string>) {
    && NoDup(ids) && (forall i | 0 <= i < |ids| :: ids[i] in t)
    && forall i, j | 0 <= i < j < |ids| :: t[ids[i]].created <= t[ids[j]].created
  }

  ghost predicate AllOf(ids: seq<string>, pending: set<string>) {
    forall id :: id in ids <==> id in pending
  }

  lemma SelectsAll(t: Table, gateway: string, ids: seq<string>, limit: nat)
    requires Selects(t, gateway, ids, limit)
    ensures InOrder(t, ids)
    ensures AllOf(ids, PendingOf(t, gateway)) <==> |PendingOf(t, gateway)| <= limit
  {
    var p := PendingOf(t, gateway);
    Distinct(ids);
    var taken := set id | id in ids;
    assert taken <= p;
    if |taken| == |p| {
      Whole(taken, p);
    }
    if AllOf(ids, p) {
      assert taken == p;
    }
  }

  /** Calls return every pending command once, in the order of creation, exactly if there are enough calls. */
  lemma AllDelivered(t: Table, gateway: string, results: seq<seq<string>>)
    requires InTurn(t, gateway, results)
    ensures InOrder(t, Concat(results))
    ensures AllOf(Concat(results), PendingOf(t, gateway)) <==>
            |results| >= (|PendingOf(t, gateway)| + 19) / 20
  {
    CallsInTurn(t, gateway, results);
    SelectsAll(t, gateway, Concat(results), 20 * |results|);
  }

  lemma Whole(a: set<string>, b: set<string>)
    requires a <= b && |a| == |b|
    ensures a == b
  {
    assert |b - a| == |b| - |a|;
  }

  /** There is a pending command that no other is older than. */
  lemma {:induction false} Oldest(t: Table, ids: set<string>) returns (id: string)
    requires ids != {} && ids <= t.Keys
    ensures id in ids && forall k | k in ids :: t[id].created <= t[k].created
    decreases |ids|
  {
    id :| id in ids;
    if ids != {id} {
      var other := Oldest(t, ids - {id});
      if t[other].created < t[id].created {
        id := other;
      }
    }
  }

  /** A select always has an answer. */
  lemma {:induction false} SelectExists(t: Table, gateway: string, limit: nat) returns (ids: seq<string>)
    ensures Selects(t, gateway, ids, limit)
  {
    ids := [];
    if limit > 0 {
      var a := SelectExists(t, gateway, limit - 1);
      var rest := PendingOf(MarkAll(t, a), gateway);
      var b: seq<string> := [];
      if rest != {} {
        var id := Oldest(MarkAll(t, a), rest);
        b := [id];
        assert |rest| >= 1;
      }
      assert Selects(MarkAll(t, a), gateway, b, 1);
      SelectsCompose(t, gateway, a, limit - 1, b, 1);
      ids := a + b;
    }
  }
}
