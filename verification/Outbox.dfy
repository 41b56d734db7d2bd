/**
 The transactional outbox: the rows, what one sweep, one operator replay and
 one retention pass do to them, and the same operations on the stored table
 (apps/api/src/workers/outbox.worker.ts, apps/api/src/workers/retention.worker.ts,
 apps/api/src/domains/platform/platform.routes.ts).
 */
module Outbox {
  import opened OldestFirst
  import opened Wrappers

  datatype Row = Row(
    createdAt: int,
    attempts: nat,
    publishedAt: Option<int>,
    dlqedAt: Option<int>,
    publishError: Option<string>)

  /** How one dispatch ended, and when. */
  datatype Outcome = Delivered(at: int) | Failed(at: int, message: string)

  predicate Published(r: Row) { r.publishedAt.Some? }

  predicate Quarantined(r: Row) { r.publishedAt.None? && r.dlqedAt.Some? }

  /** The sweeper's WHERE clause. */
  predicate Pending(r: Row) { r.publishedAt.None? && r.dlqedAt.None? }

  function NewRow(at: int): Row { Row(at, 0, None, None, None) }

  function Clip(message: string): string {
    if |message| <= 1000 then message else message[..1000]
  }

  /** The row a sweeper writes after one dispatch. */
  function AfterAttempt(r: Row, out: Outcome, max: nat): Row {
    match out
    case Delivered(at) => r.(publishedAt := Some(at), publishError := None)
    case Failed(at, message) =>
      r.(attempts := r.attempts + 1,
         publishError := Some(Clip(message)),
         dlqedAt := if r.attempts + 1 >= max then Some(at) else r.dlqedAt)
  }

  /** The row an operator replay writes. */
  function Replayed(r: Row): Row {
    r.(dlqedAt := None, attempts := 0, publishError := None)
  }

  /** The retention worker's WHERE clause. */
  predicate Prunable(r: Row, cutoff: int) {
    r.publishedAt.Some? && r.publishedAt.value < cutoff && r.dlqedAt.None?
  }

  /** The pending rows nobody holds, with the times the sweeper orders them by. */
  function Claimable(rows: map<Id, Row>, locked: set<Id>): map<Id, int> {
    map id | id in rows && id !in locked && Pending(rows[id]) :: rows[id].createdAt
  }

  /** What FOR UPDATE SKIP LOCKED returns: the oldest of them, up to the batch size. */
  ghost predicate IsClaim(rows: map<Id, Row>, locked: set<Id>, batch: nat, claimed: seq<Id>) {
    IsAnswer(Claimable(rows, locked), batch, claimed)
  }

  /** The write set of a sweep that has dispatched its first |outs| claims. */
  function Writes(rows: map<Id, Row>, claimed: seq<Id>, outs: seq<Outcome>, max: nat): map<Id, Row>
    requires |outs| <= |claimed| && forall id :: id in claimed ==> id in rows
    decreases |outs|
  {
    if outs == [] then map[]
    else
      var n := |outs| - 1;
      Writes(rows, claimed, outs[..n], max)[claimed[n] := AfterAttempt(rows[claimed[n]], outs[n], max)]
  }

  /** The ids whose dispatch the queue accepted. */
  function Deliveries(claimed: seq<Id>, outs: seq<Outcome>): seq<Id>
    requires |outs| <= |claimed|
    decreases |outs|
  {
    if outs == [] then []
    else
      var n := |outs| - 1;
      Deliveries(claimed, outs[..n]) + (if outs[n].Delivered? then [claimed[n]] else [])
  }

  /** Only claims are written. */
  lemma {:induction false} WrittenIsClaimed(rows: map<Id, Row>, claimed: seq<Id>, outs: seq<Outcome>, max: nat, id: Id)
    returns (i: nat)
    requires |outs| <= |claimed| && forall id :: id in claimed ==> id in rows
    requires id in Writes(rows, claimed, outs, max)
    ensures i < |outs| && claimed[i] == id
    decreases |outs|
  {
    i := |outs| - 1;
    if claimed[i] != id {
      i := WrittenIsClaimed(rows, claimed, outs[..i], max, id);
    }
  }

  lemma NotYetWritten(rows: map<Id, Row>, claimed: seq<Id>, outs: seq<Outcome>, max: nat, i: nat)
    requires |outs| <= i < |claimed| && Distinct(claimed) && forall id :: id in claimed ==> id in rows
    ensures claimed[i] !in Writes(rows, claimed, outs, max)
  {
    if claimed[i] in Writes(rows, claimed, outs, max) {
      var j := WrittenIsClaimed(rows, claimed, outs, max, claimed[i]);
    }
  }

  /** Each claimed row is written once, from the row that was claimed. */
  lemma {:induction false} WritesAt(rows: map<Id, Row>, claimed: seq<Id>, outs: seq<Outcome>, max: nat, i: nat)
    requires |outs| <= |claimed| && Distinct(claimed) && forall id :: id in claimed ==> id in rows
    requires i < |outs|
    ensures claimed[i] in Writes(rows, claimed, outs, max)
    ensures Writes(rows, claimed, outs, max)[claimed[i]] == AfterAttempt(rows[claimed[i]], outs[i], max)
    decreases |outs|
  {
    hide AfterAttempt;
    var n := |outs| - 1;
    if i < n {
      WritesAt(rows, claimed, outs[..n], max, i);
      assert claimed[i] != claimed[n] && outs[..n][i] == outs[i];
    }
  }

  lemma {:induction false} DeliveriesHold(claimed: seq<Id>, outs: seq<Outcome>, i: nat)
    requires |outs| <= |claimed| && i < |outs| && outs[i].Delivered?
    ensures claimed[i] in Deliveries(claimed, outs)
    decreases |outs|
  {
    var n := |outs| - 1;
    if i < n {
      DeliveriesHold(claimed, outs[..n], i);
    }
  }

  /** Where a sweep stands after i dispatches: the writes it has gathered and the dispatches the queues accepted. */
  predicate Dispatched(
    rows: map<Id, Row>, claimed: seq<Id>, outs: seq<Outcome>, max: nat, i: nat,
    writes: map<Id, Row>, before: seq<Id>, sent: seq<Id>)
    requires i <= |outs| <= |claimed| && forall id :: id in claimed ==> id in rows
  {
    writes == Writes(rows, claimed, outs[..i], max) && sent == before + Deliveries(claimed, outs[..i])
  }

  /** One more dispatch adds one write, and one delivery if the queue took it. */
  lemma OneMoreDispatched(
    rows: map<Id, Row>, claimed: seq<Id>, outs: seq<Outcome>, max: nat, i: nat,
    writes: map<Id, Row>, before: seq<Id>, sent: seq<Id>)
    requires i < |outs| <= |claimed| && forall id :: id in claimed ==> id in rows
    requires Dispatched(rows, claimed, outs, max, i, writes, before, sent)
    ensures Dispatched(rows, claimed, outs, max, i + 1,
                       writes[claimed[i] := AfterAttempt(rows[claimed[i]], outs[i], max)],
                       before, sent + (if outs[i].Delivered? then [claimed[i]] else []))
  {
    hide AfterAttempt;
    assert outs[..i + 1][..i] == outs[..i];
  }

  lemma AllDispatched(
    rows: map<Id, Row>, claimed: seq<Id>, outs: seq<Outcome>, max: nat,
    writes: map<Id, Row>, before: seq<Id>, sent: seq<Id>)
    requires |outs| <= |claimed| && forall id :: id in claimed ==> id in rows
    requires Dispatched(rows, claimed, outs, max, |outs|, writes, before, sent)
    ensures writes == Writes(rows, claimed, outs, max) && sent == before + Deliveries(claimed, outs)
  {
    assert outs[..|outs|] == outs;
  }

  // ---------------------------------------------------------------- the stored table

  class OutboxTable {
    var rows: map<Id, Row>
    var sent: seq<Id>  // dispatches the queues accepted; a rollback does not take them back

    constructor ()
      ensures rows == map[] && sent == []
    {
      rows, sent := map[], [];
    }

    method Append(id: Id, at: int)
      requires id !in rows
      modifies this`rows
      ensures rows == old(rows)[id := NewRow(at)]
    {
      rows := rows[id := NewRow(at)];
    }

    /** One turn of the dispatch loop: the row's new version joins the transaction's writes. */
    method TryRow(id: Id, writes: map<Id, Row>, out: Outcome, max: nat) returns (writes': map<Id, Row>)
      requires id in rows
      modifies this`sent
      ensures writes' == writes[id := AfterAttempt(rows[id], out, max)]
      ensures sent == old(sent) + (if out.Delivered? then [id] else [])
    {
      var row := rows[id];
      match out {
        case Delivered(at) =>
          sent := sent + [id];
          writes' := writes[id := row.(publishedAt := Some(at), publishError := None)];
        case Failed(at, message) =>
          var nextAttempt := row.attempts + 1;
          var dlq := nextAttempt >= max;
          writes' := writes[id := row.(attempts := nextAttempt, publishError := Some(Clip(message)),
                                       dlqedAt := if dlq then Some(at) else row.dlqedAt)];
      }
    }

    /**
     One sweep as one transaction.  `outs` says how each dispatch ends; when
     there are fewer of them than claims, or `commits` is false, the
     transaction aborts at that point: the rows stay, the dispatches happened.
     */
    method ProcessOnce(claimed: seq<Id>, outs: seq<Outcome>, commits: bool, batch: nat, max: nat) returns (count: nat)
      requires IsClaim(rows, {}, batch, claimed) && |outs| <= |claimed|
      modifies this
      ensures sent == old(sent) + Deliveries(claimed, outs)
      ensures forall id :: id in claimed ==> id in old(rows)
      ensures commits && |outs| == |claimed| ==>
        count == |claimed| && rows == old(rows) + Writes(old(rows), claimed, outs, max)
      ensures !(commits && |outs| == |claimed|) ==> count == 0 && rows == old(rows)
    {
      ghost var before := rows;
      assert forall id :: id in claimed ==> id in before;
      assert Dispatched(before, claimed, outs, max, 0, map[], sent, sent);
      hide AfterAttempt, Writes, Deliveries, IsClaim, Dispatched;
      var writes := map[];
      var i := 0;
      while i < |outs|
        invariant 0 <= i <= |outs| && rows == before
        invariant Dispatched(before, claimed, outs, max, i, writes, old(sent), sent)
      {
        OneMoreDispatched(before, claimed, outs, max, i, writes, old(sent), sent);
        writes := TryRow(claimed[i], writes, outs[i], max);
        i := i + 1;
      }
      AllDispatched(before, claimed, outs, max, writes, old(sent), sent);
      if commits && |outs| == |claimed| {
        rows := rows + writes;
        count := |claimed|;
      } else {
        count := 0;
      }
    }

    /** The operator's replay of one quarantined row; false is the route's not-found answer. */
    method Replay(id: Id) returns (ok: bool)
      modifies this`rows
      ensures ok <==> id in old(rows) && old(rows)[id].dlqedAt.Some?
      ensures rows == if ok then old(rows)[id := Replayed(old(rows)[id])] else old(rows)
    {
      ok := id in rows && rows[id].dlqedAt.Some?;
      if ok {
        rows := rows[id := rows[id].(dlqedAt := None, attempts := 0, publishError := None)];
      }
    }

    /** One retention pass over the victims its query picked. */
    method Prune(victims: set<Id>, cutoff: int, batch: nat) returns (deleted: nat)
      requires |victims| <= batch && forall id :: id in victims ==> id in rows && Prunable(rows[id], cutoff)
      modifies this`rows
      ensures deleted == |victims| && rows == old(rows) - victims
    {
      rows := rows - victims;
      deleted := |victims|;
    }
  }
}
