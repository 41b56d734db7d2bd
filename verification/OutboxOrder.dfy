/**
 The order in which the outbox delivers (the header of
 apps/api/src/workers/outbox.worker.ts promises created_at order within a
 kind): exactly which operations of a single sweeper, the writers, the
 operators and retention keep it, and that two sweepers need not.
 */
module OutboxOrder {
  import opened OldestFirst
  import opened Outbox
  import P = OutboxProtocol
  import opened Wrappers

  /** The kind of each row, and when it was created: the start of the transaction that wrote it. */
  datatype Order = Order(kind: Id -> nat, time: Id -> int)

  /** The row p ought to be delivered before x. */
  predicate Ahead(o: Order, p: Id, x: Id) { o.kind(p) == o.kind(x) && o.time(p) < o.time(x) }

  /** Delivering d now comes too late for none of the rows delivered so far, or is a repetition. */
  predicate InTime(o: Order, sent: seq<Id>, d: Id) { d in sent || forall x :: x in sent ==> !Ahead(o, d, x) }

  /** Within a kind rows are delivered in the order of their creation; a repeated delivery does not count. */
  predicate InOrder(o: Order, sent: seq<Id>) {
    sent == [] || (var n := |sent| - 1; InOrder(o, sent[..n]) && InTime(o, sent[..n], sent[n]))
  }

  /** The same, said of any two deliveries. */
  lemma {:induction false} InOrderMeans(o: Order, sent: seq<Id>)
    ensures InOrder(o, sent) <==>
      forall i, j :: 0 <= i < j < |sent| && o.kind(sent[j]) == o.kind(sent[i]) && o.time(sent[j]) < o.time(sent[i]) ==>
        sent[j] in sent[..i]
  {
    if sent != [] {
      var n := |sent| - 1;
      InOrderMeans(o, sent[..n]);
      if InOrder(o, sent) {
        forall i, j | 0 <= i < j < |sent| && Ahead(o, sent[j], sent[i]) ensures sent[j] in sent[..i] {
          if j < n {
            assert sent[..n][..i] == sent[..i];
          } else {
            var k :| 0 <= k < n && sent[k] == sent[n];
            if i < k {
              assert sent[..n][k] in sent[..n][..i] && sent[..n][..i] == sent[..i];
            }
          }
        }
      } else {
        BadPair(o, sent);
      }
    }
  }

  lemma {:induction false} BadPair(o: Order, sent: seq<Id>)
    requires !InOrder(o, sent)
    ensures exists i, j :: 0 <= i < j < |sent| && Ahead(o, sent[j], sent[i]) && sent[j] !in sent[..i]
  {
    var n := |sent| - 1;
    if !InOrder(o, sent[..n]) {
      BadPair(o, sent[..n]);
      var i, j :| 0 <= i < j < n && Ahead(o, sent[..n][j], sent[..n][i]) && sent[..n][j] !in sent[..n][..i];
      assert sent[..n][..i] == sent[..i] && Ahead(o, sent[j], sent[i]);
    } else {
      var x :| x in sent[..n] && Ahead(o, sent[n], x);
      var i :| 0 <= i < n && sent[i] == x;
      assert forall k :: 0 <= k < i ==> sent[k] == sent[..n][k];
    }
  }

  // ---------------------------------------------------------------- one sweeper

  /** The outbox as OutboxTable holds it. */
  datatype Table = Table(rows: map<Id, Row>, sent: seq<Id>)

  /** What OutboxTable's methods do, one at a time. */
  datatype Op =
    | Append(id: Id)
    | Sweep(claimed: seq<Id>, outs: seq<Outcome>, commits: bool)
    | Replay(id: Id)
    | Prune(victims: set<Id>, cutoff: int)

  datatype Config = Config(max: nat, batch: nat)

  ghost predicate Enabled(t: Table, op: Op, c: Config) {
    match op
    case Append(id) => id !in t.rows
    case Sweep(claimed, outs, _) => IsClaim(t.rows, {}, c.batch, claimed) && |outs| <= |claimed|
    case Replay(id) => id in t.rows && t.rows[id].dlqedAt.Some?
    case Prune(victims, cutoff) => forall id :: id in victims ==> id in t.rows && Prunable(t.rows[id], cutoff)
  }

  predicate Commits(op: Op) { op.Sweep? && op.commits && |op.outs| == |op.claimed| }

  lemma ClaimedArePending(t: Table, op: Op, c: Config)
    requires Enabled(t, op, c) && op.Sweep?
    ensures Distinct(op.claimed) && |op.outs| <= |op.claimed|
    ensures forall id :: id in op.claimed ==> id in t.rows && Pending(t.rows[id])
  {
  }

  ghost function Apply(o: Order, t: Table, op: Op, c: Config): Table
    requires Enabled(t, op, c)
  {
    match op
    case Append(id) => t.(rows := t.rows[id := NewRow(o.time(id))])
    case Sweep(claimed, outs, _) =>
      ClaimedArePending(t, op, c);
      Table(if Commits(op) then t.rows + Writes(t.rows, claimed, outs, c.max) else t.rows,
            t.sent + Deliveries(claimed, outs))
    case Replay(id) => t.(rows := t.rows[id := Replayed(t.rows[id])])
    case Prune(victims, _) => t.(rows := t.rows - victims)
  }

  /** The operations are the table's methods, with their contracts. */
  lemma OpsAreTheMethods(o: Order, t: Table, op: Op, c: Config)
    requires Enabled(t, op, c)
    ensures var t' := Apply(o, t, op, c);
      && (op.Append? ==> t' == Table(t.rows[op.id := NewRow(o.time(op.id))], t.sent))
      && (op.Replay? ==> t' == Table(t.rows[op.id := Replayed(t.rows[op.id])], t.sent))
      && (op.Prune? ==> t' == Table(t.rows - op.victims, t.sent))
      && (op.Sweep? ==>
           && |op.outs| <= |op.claimed| && (forall id :: id in op.claimed ==> id in t.rows)
           && t'.sent == t.sent + Deliveries(op.claimed, op.outs)
           && t'.rows == if op.commits && |op.outs| == |op.claimed| then t.rows + Writes(t.rows, op.claimed, op.outs, c.max) else t.rows)
  {
    if op.Sweep? {
      ClaimedArePending(t, op, c);
    }
  }

  /** The rows carry their times. */
  predicate Timed(o: Order, t: Table) { forall id :: id in t.rows ==> t.rows[id].createdAt == o.time(id) }

  /** Nothing pending is behind: what has yet to be delivered first is in time. */
  predicate CaughtUp(o: Order, t: Table) {
    forall p :: p in t.rows && Pending(t.rows[p]) ==> InTime(o, t.sent, p)
  }

  predicate Fifo(o: Order, t: Table) { InOrder(o, t.sent) && CaughtUp(o, t) }

  /** A dispatch that fails, of a row the sweep leaves pending and that no queue has seen yet. */
  predicate LeavesBehind(t: Table, op: Op, c: Config, i: nat)
    requires op.Sweep? && i < |op.outs| <= |op.claimed|
  {
    && op.outs[i].Failed? && op.claimed[i] !in t.sent && op.claimed[i] in t.rows
    && (Commits(op) ==> t.rows[op.claimed[i]].attempts + 1 < c.max)
  }

  /**
   The operations that put the order at risk: a row committed, or replayed,
   after a younger one of its kind was delivered, and a failed dispatch with a
   delivery of a younger row of its kind after it in the same sweep.
   */
  predicate Breaks(o: Order, t: Table, op: Op, c: Config) {
    match op
    case Append(id) => !InTime(o, t.sent, id)
    case Replay(id) => id in t.rows && Pending(Replayed(t.rows[id])) && !InTime(o, t.sent, id)
    case Sweep(claimed, outs, _) =>
      exists i, j :: 0 <= i < j < |outs| <= |claimed|
        && LeavesBehind(t, op, c, i) && outs[j].Delivered? && Ahead(o, claimed[i], claimed[j])
    case Prune(_, _) => false
  }

  lemma {:induction false} DeliveredWas(claimed: seq<Id>, outs: seq<Outcome>, id: Id) returns (j: nat)
    requires |outs| <= |claimed| && id in Deliveries(claimed, outs)
    ensures j < |outs| && claimed[j] == id && outs[j].Delivered?
    decreases |outs|
  {
    j := |outs| - 1;
    if !(outs[j].Delivered? && claimed[j] == id) {
      j := DeliveredWas(claimed, outs[..j], id);
    }
  }

  /** Rows are claimed in the order of their creation, and nothing older is left out. */
  lemma ClaimsAreOldest(o: Order, t: Table, op: Op, c: Config)
    requires Enabled(t, op, c) && op.Sweep? && Timed(o, t)
    ensures forall i, j :: 0 <= i < j < |op.claimed| ==> !Ahead(o, op.claimed[j], op.claimed[i])
    ensures forall p, i :: p in t.rows && Pending(t.rows[p]) && p !in op.claimed && 0 <= i < |op.claimed| ==>
      !Ahead(o, p, op.claimed[i])
  {
    ClaimedArePending(t, op, c);
    var times := Claimable(t.rows, {});
    assert forall id :: id in times ==> times[id] == o.time(id);
    forall p, i | p in t.rows && Pending(t.rows[p]) && p !in op.claimed && 0 <= i < |op.claimed|
      ensures !Ahead(o, p, op.claimed[i])
    {
      assert p in times;
    }
  }

  /** What a sweep delivers is in order after whatever was, as long as its claims were in time. */
  lemma {:induction false} DeliveriesAreInOrder(o: Order, sent: seq<Id>, claimed: seq<Id>, outs: seq<Outcome>)
    requires |outs| <= |claimed| && InOrder(o, sent)
    requires forall id :: id in claimed ==> InTime(o, sent, id)
    requires forall i, j :: 0 <= i < j < |claimed| ==> !Ahead(o, claimed[j], claimed[i])
    ensures InOrder(o, sent + Deliveries(claimed, outs))
    decreases |outs|
  {
    hide Ahead;
    if outs == [] {
      assert sent + [] == sent;
    } else {
      var n := |outs| - 1;
      var before := sent + Deliveries(claimed, outs[..n]);
      DeliveriesAreInOrder(o, sent, claimed, outs[..n]);
      if outs[n].Delivered? {
        assert InTime(o, sent, claimed[n]);
        forall x | x in Deliveries(claimed, outs[..n]) ensures !Ahead(o, claimed[n], x) {
          var j := DeliveredWas(claimed, outs[..n], x);
        }
        assert (sent + Deliveries(claimed, outs))[..|before|] == before;
        assert sent + Deliveries(claimed, outs) == before + [claimed[n]];
      } else {
        assert sent + Deliveries(claimed, outs) == before;
      }
    }
  }

  /** A row after a sweep that attempted it, and one after a sweep that did not. */
  lemma AttemptedRow(o: Order, t: Table, op: Op, c: Config, i: nat)
    requires Enabled(t, op, c) && op.Sweep? && i < |op.outs|
    ensures op.claimed[i] in t.rows && op.claimed[i] in Apply(o, t, op, c).rows
    ensures var r, r' := t.rows[op.claimed[i]], Apply(o, t, op, c).rows[op.claimed[i]];
      r'.createdAt == r.createdAt && (Pending(r') <==> (Commits(op) ==> op.outs[i].Failed? && r.attempts + 1 < c.max))
  {
    ClaimedArePending(t, op, c);
    assert op.claimed[i] in op.claimed;
    if Commits(op) {
      WritesAt(t.rows, op.claimed, op.outs, c.max, i);
    }
  }

  lemma UnattemptedRow(o: Order, t: Table, op: Op, c: Config, p: Id)
    requires Enabled(t, op, c) && op.Sweep? && p !in op.claimed
    ensures p in Apply(o, t, op, c).rows <==> p in t.rows
    ensures p in t.rows ==> Apply(o, t, op, c).rows[p] == t.rows[p]
  {
    ClaimedArePending(t, op, c);
    if p in Writes(t.rows, op.claimed, op.outs, c.max) {
      var i := WrittenIsClaimed(t.rows, op.claimed, op.outs, c.max, p);
    }
  }

  /** Where a pending row stands after a sweep: behind exactly if the sweep left it behind. */
  lemma BehindAfterSweep(o: Order, t: Table, op: Op, c: Config, p: Id)
    requires Enabled(t, op, c) && op.Sweep? && Timed(o, t) && CaughtUp(o, t)
    requires var after := Apply(o, t, op, c); p in after.rows && Pending(after.rows[p]) && !InTime(o, after.sent, p)
    ensures Breaks(o, t, op, c)
  {
    hide Ahead, Writes, Deliveries, Enabled;
    var after := Apply(o, t, op, c);
    ClaimsAreOldest(o, t, op, c);
    ClaimedArePending(t, op, c);
    if p !in op.claimed {
      UnattemptedRow(o, t, op, c, p);
    }
    assert p in t.rows && Pending(t.rows[p]);
    var x :| x in after.sent && Ahead(o, p, x);
    assert x in Deliveries(op.claimed, op.outs);
    var j := DeliveredWas(op.claimed, op.outs, x);
    var i :| 0 <= i < |op.claimed| && op.claimed[i] == p;
    NotAheadOfItself(o, p);
    assert i < j;
    AttemptedRow(o, t, op, c, i);
    if op.outs[i].Delivered? {
      DeliveriesHold(op.claimed, op.outs, i);
    }
    assert LeavesBehind(t, op, c, i);
  }

  lemma NotAheadOfItself(o: Order, p: Id)
    ensures !Ahead(o, p, p)
  {
  }

  /** And a row it left behind is. */
  lemma LeftBehind(o: Order, t: Table, op: Op, c: Config, i: nat, j: nat)
    requires Enabled(t, op, c) && op.Sweep? && i < j < |op.outs| <= |op.claimed|
    requires LeavesBehind(t, op, c, i) && op.outs[j].Delivered? && Ahead(o, op.claimed[i], op.claimed[j])
    ensures !CaughtUp(o, Apply(o, t, op, c))
  {
    hide Ahead, Writes, Deliveries, Enabled;
    var after := Apply(o, t, op, c);
    var p := op.claimed[i];
    ClaimedArePending(t, op, c);
    AttemptedRow(o, t, op, c, i);
    DeliveriesHold(op.claimed, op.outs, j);
    assert op.claimed[j] in after.sent;
    if p in Deliveries(op.claimed, op.outs) {
      var k := DeliveredWas(op.claimed, op.outs, p);
    }
    assert !InTime(o, after.sent, p);
  }

  lemma SweepKeepsOrder(o: Order, t: Table, op: Op, c: Config)
    requires Enabled(t, op, c) && op.Sweep? && Timed(o, t) && Fifo(o, t)
    ensures InOrder(o, Apply(o, t, op, c).sent)
    ensures CaughtUp(o, Apply(o, t, op, c)) <==> !Breaks(o, t, op, c)
  {
    hide Ahead, Writes, Deliveries, InTime;
    var after := Apply(o, t, op, c);
    ClaimedArePending(t, op, c);
    ClaimsAreOldest(o, t, op, c);
    DeliveriesAreInOrder(o, t.sent, op.claimed, op.outs);
    hide Enabled, InOrder, Apply;
    if Breaks(o, t, op, c) {
      var i, j :| 0 <= i < j < |op.outs| <= |op.claimed|
        && LeavesBehind(t, op, c, i) && op.outs[j].Delivered? && Ahead(o, op.claimed[i], op.claimed[j]);
      LeftBehind(o, t, op, c, i, j);
    } else {
      forall p | p in after.rows && Pending(after.rows[p]) ensures InTime(o, after.sent, p) {
        if !InTime(o, after.sent, p) { BehindAfterSweep(o, t, op, c, p); }
      }
    }
  }

  /** The promise is kept by exactly the operations that do not put it at risk. */
  lemma WhenAnOperationKeepsOrder(o: Order, t: Table, op: Op, c: Config)
    requires Enabled(t, op, c) && Timed(o, t) && Fifo(o, t)
    ensures Fifo(o, Apply(o, t, op, c)) <==> !Breaks(o, t, op, c)
    ensures InOrder(o, Apply(o, t, op, c).sent)
  {
    hide InOrder, InTime;
    var after := Apply(o, t, op, c);
    match op
    case Sweep(_, _, _) => SweepKeepsOrder(o, t, op, c);
    case Append(id) => assert after.rows[id] == NewRow(o.time(id));
    case Replay(id) => assert after.rows[id] == Replayed(t.rows[id]);
    case Prune(_, _) =>
  }

  lemma TimesStay(o: Order, t: Table, op: Op, c: Config)
    requires Enabled(t, op, c) && Timed(o, t)
    ensures Timed(o, Apply(o, t, op, c))
    ensures forall id :: id in Apply(o, t, op, c).rows ==> id in t.rows || (op.Append? && id == op.id)
    ensures forall id :: id in Apply(o, t, op, c).sent ==> id in t.sent || id in t.rows
  {
    hide Writes, Deliveries;
    var after := Apply(o, t, op, c);
    if op.Sweep? {
      ClaimedArePending(t, op, c);
      forall id | id in after.rows ensures id in t.rows && after.rows[id].createdAt == o.time(id) {
        if id in Writes(t.rows, op.claimed, op.outs, c.max) {
          var i := WrittenIsClaimed(t.rows, op.claimed, op.outs, c.max, id);
          AttemptedRow(o, t, op, c, i);
        }
      }
      forall id | id in Deliveries(op.claimed, op.outs) ensures id in t.rows {
        var j := DeliveredWas(op.claimed, op.outs, id);
      }
    }
  }

  // ---------------------------------------------------------------- runs of one sweeper

  ghost predicate Legal(o: Order, t: Table, ops: seq<Op>, c: Config)
    decreases |ops|
  {
    ops == [] || (Enabled(t, ops[0], c) && Legal(o, Apply(o, t, ops[0], c), ops[1..], c))
  }

  ghost function Final(o: Order, t: Table, ops: seq<Op>, c: Config): Table
    requires Legal(o, t, ops, c)
    decreases |ops|
  {
    if ops == [] then t else Final(o, Apply(o, t, ops[0], c), ops[1..], c)
  }

  /** The order is kept, and never at risk, in every state of the run. */
  ghost predicate AlwaysFifo(o: Order, t: Table, ops: seq<Op>, c: Config)
    requires Legal(o, t, ops, c)
    decreases |ops|
  {
    Fifo(o, t) && (ops == [] || AlwaysFifo(o, Apply(o, t, ops[0], c), ops[1..], c))
  }

  ghost predicate NothingBreaks(o: Order, t: Table, ops: seq<Op>, c: Config)
    requires Legal(o, t, ops, c)
    decreases |ops|
  {
    ops == [] || (!Breaks(o, t, ops[0], c) && NothingBreaks(o, Apply(o, t, ops[0], c), ops[1..], c))
  }

  /** Over a run: the order is never at risk if and only if no operation puts it there. */
  lemma {:induction false} WhenARunKeepsOrder(o: Order, t: Table, ops: seq<Op>, c: Config)
    requires Legal(o, t, ops, c) && Timed(o, t) && Fifo(o, t)
    ensures AlwaysFifo(o, t, ops, c) <==> NothingBreaks(o, t, ops, c)
    ensures NothingBreaks(o, t, ops, c) ==> InOrder(o, Final(o, t, ops, c).sent)
    decreases |ops|
  {
    hide Enabled, Apply, Breaks, CaughtUp, InOrder, Timed;
    if ops != [] {
      WhenAnOperationKeepsOrder(o, t, ops[0], c);
      TimesStay(o, t, ops[0], c);
      if !Breaks(o, t, ops[0], c) {
        WhenARunKeepsOrder(o, Apply(o, t, ops[0], c), ops[1..], c);
      }
    }
  }

  /** No dispatch fails, nobody replays, and rows are committed in the order of their times, none older than `latest`. */
  predicate Smooth(o: Order, ops: seq<Op>, latest: int)
    decreases |ops|
  {
    ops == [] ||
    match ops[0]
    case Append(id) => latest <= o.time(id) && Smooth(o, ops[1..], o.time(id))
    case Sweep(_, outs, _) => (forall i :: 0 <= i < |outs| ==> outs[i].Delivered?) && Smooth(o, ops[1..], latest)
    case Replay(_) => false
    case Prune(_, _) => Smooth(o, ops[1..], latest)
  }

  lemma SmoothDoesNotBreak(o: Order, t: Table, ops: seq<Op>, c: Config, latest: int)
    requires ops != [] && Smooth(o, ops, latest) && forall id :: id in t.sent ==> o.time(id) <= latest
    ensures !Breaks(o, t, ops[0], c)
  {
  }

  /** One sweeper, no failure, writers that commit in order: the promise holds, whatever commits or aborts. */
  lemma {:induction false} SmoothRunsAreInOrder(o: Order, t: Table, ops: seq<Op>, c: Config, latest: int)
    requires Legal(o, t, ops, c) && Timed(o, t) && Fifo(o, t) && Smooth(o, ops, latest)
    requires forall id :: id in t.rows || id in t.sent ==> o.time(id) <= latest
    ensures Fifo(o, Final(o, t, ops, c))
    decreases |ops|
  {
    hide Enabled, Apply, CaughtUp, InOrder, Timed, Breaks;
    if ops != [] {
      SmoothDoesNotBreak(o, t, ops, c, latest);
      WhenAnOperationKeepsOrder(o, t, ops[0], c);
      TimesStay(o, t, ops[0], c);
      SmoothRunsAreInOrder(o, Apply(o, t, ops[0], c), ops[1..], c, if ops[0].Append? then o.time(ops[0].id) else latest);
    }
  }

  // ---------------------------------------------------------------- what is at risk is lost

  /** All of a claim delivered. */
  function Delivering(claimed: seq<Id>): Op { Sweep(claimed, seq(|claimed|, _ => Delivered(0)), true) }

  lemma {:induction false} TooLateIsOutOfOrder(o: Order, sent: seq<Id>, more: seq<Id>, p: Id)
    requires !InTime(o, sent, p) && p in more
    ensures !InOrder(o, sent + more)
    decreases |more|
  {
    var n := |more| - 1;
    assert (sent + more)[..|sent + more| - 1] == sent + more[..n];
    if p in more[..n] {
      TooLateIsOutOfOrder(o, sent, more[..n], p);
    } else {
      assert more[n] == p;
      assert forall x :: x in sent ==> x in sent + more[..n];
    }
  }

  lemma {:induction false} AllDelivered(claimed: seq<Id>, outs: seq<Outcome>)
    requires |outs| <= |claimed| && forall i :: 0 <= i < |outs| ==> outs[i].Delivered?
    ensures Deliveries(claimed, outs) == claimed[..|outs|]
    decreases |outs|
  {
    if outs != [] {
      AllDelivered(claimed, outs[..|outs| - 1]);
    }
  }

  lemma FewerLeft(o: Order, t: Table, claimed: seq<Id>, p: Id, c: Config)
    requires c.batch >= 1 && IsClaim(t.rows, {}, c.batch, claimed)
    requires p in t.rows && Pending(t.rows[p]) && p !in claimed
    ensures |Claimable(Apply(o, t, Delivering(claimed), c).rows, {})| < |Claimable(t.rows, {})|
  {
    var op := Delivering(claimed);
    var after := Apply(o, t, op, c);
    assert p in Claimable(t.rows, {}) && |claimed| == c.batch;
    forall id | id in Claimable(after.rows, {}) ensures id in Claimable(t.rows, {}).Keys - {claimed[0]} {
      if id in claimed {
        var i :| 0 <= i < |claimed| && claimed[i] == id;
        AttemptedRow(o, t, op, c, i);
      } else {
        UnattemptedRow(o, t, op, c, id);
      }
    }
    assert claimed[0] in Claimable(t.rows, {});
    SubsetCount(Claimable(after.rows, {}).Keys, Claimable(t.rows, {}).Keys - {claimed[0]});
  }

  /** A pending row that is behind comes out of order as soon as the dispatches succeed. */
  lemma {:induction false} BehindIsOutOfOrder(o: Order, t: Table, p: Id, c: Config) returns (ops: seq<Op>)
    requires c.batch >= 1 && p in t.rows && Pending(t.rows[p]) && !InTime(o, t.sent, p)
    ensures Legal(o, t, ops, c) && forall op :: op in ops ==> op.Sweep? && op == Delivering(op.claimed)
    ensures !InOrder(o, Final(o, t, ops, c).sent)
    decreases |Claimable(t.rows, {})|
  {
    var claimed := AnswerExists(Claimable(t.rows, {}), c.batch);
    var op := Delivering(claimed);
    var after := Apply(o, t, op, c);
    AllDelivered(claimed, op.outs);
    if p in claimed {
      TooLateIsOutOfOrder(o, t.sent, claimed, p);
      ops := [op];
      assert ops[1..] == [] && after.sent == t.sent + claimed;
    } else {
      UnattemptedRow(o, t, op, c, p);
      FewerLeft(o, t, claimed, p, c);
      var rest := BehindIsOutOfOrder(o, after, p, c);
      ops := [op] + rest;
      assert ops[1..] == rest;
    }
  }

  ghost predicate OnlyDeliver(ops: seq<Op>) { forall op :: op in ops ==> op.Sweep? && op == Delivering(op.claimed) }

  lemma {:induction false} DeliveringKeepsOrder(o: Order, t: Table, ops: seq<Op>, c: Config)
    requires Legal(o, t, ops, c) && Timed(o, t) && Fifo(o, t) && OnlyDeliver(ops)
    ensures InOrder(o, Final(o, t, ops, c).sent)
    decreases |ops|
  {
    hide Enabled, Apply, CaughtUp, InOrder, Timed;
    if ops != [] {
      assert ops[0] in ops && !Breaks(o, t, ops[0], c);
      WhenAnOperationKeepsOrder(o, t, ops[0], c);
      TimesStay(o, t, ops[0], c);
      DeliveringKeepsOrder(o, Apply(o, t, ops[0], c), ops[1..], c);
    }
  }

  /** A state is at risk if and only if the order is already lost once every dispatch succeeds. */
  lemma WhenOrderIsLost(o: Order, t: Table, c: Config)
    requires c.batch >= 1 && Timed(o, t) && InOrder(o, t.sent)
    ensures CaughtUp(o, t) <==>
      forall ops :: Legal(o, t, ops, c) && OnlyDeliver(ops) ==> InOrder(o, Final(o, t, ops, c).sent)
  {
    hide InOrder, Legal, Timed;
    if CaughtUp(o, t) {
      forall ops | Legal(o, t, ops, c) && OnlyDeliver(ops) ensures InOrder(o, Final(o, t, ops, c).sent) {
        DeliveringKeepsOrder(o, t, ops, c);
      }
    } else {
      var p :| p in t.rows && Pending(t.rows[p]) && !InTime(o, t.sent, p);
      var ops := BehindIsOutOfOrder(o, t, p, c);
    }
  }

  // ---------------------------------------------------------------- two runs that break it

  lemma RunOf(o: Order, t: Table, op: Op, rest: seq<Op>, c: Config)
    requires Enabled(t, op, c) && Legal(o, Apply(o, t, op, c), rest, c)
    ensures Legal(o, t, [op] + rest, c) && Final(o, t, [op] + rest, c) == Final(o, Apply(o, t, op, c), rest, c)
  {
    assert ([op] + rest)[1..] == rest;
  }

  /** A dispatch fails, the younger row of its kind behind it in the batch does not, and the retry comes after it. */
  function RetriedRun(p: Id, q: Id, outs: seq<Outcome>, again: Outcome): seq<Op> {
    [Append(p)] + ([Append(q)] + ([Sweep([p, q], outs, true)] + ([Sweep([p], [again], true)] + [])))
  }

  lemma RetriesOvertake(o: Order, p: Id, q: Id, outs: seq<Outcome>, again: Outcome, c: Config)
    requires o.kind(p) == o.kind(q) && o.time(p) < o.time(q) && c.max >= 2 && c.batch >= 2
    requires |outs| == 2 && outs[0].Failed? && outs[1].Delivered? && again.Delivered?
    ensures var empty := Table(map[], []);
      && Legal(o, empty, RetriedRun(p, q, outs, again), c)
      && Final(o, empty, RetriedRun(p, q, outs, again), c).sent == [q, p]
    ensures !InOrder(o, [q, p])
  {
    OutOfOrder(o, p, q);
    var empty := Table(map[], []);
    var first := Apply(o, empty, Append(p), c);
    var both := BothPending(o, p, q);
    assert Apply(o, first, Append(q), c) == both;
    var sweep, retry := Sweep([p, q], outs, true), Sweep([p], [again], true);
    FirstSweep(o, p, q, sweep, c);
    var once := Apply(o, both, sweep, c);
    Retry(o, once, p, retry, c);
    RetrySends(o, once, p, retry, c);
    hide Ahead, Enabled, Apply, InOrder;
    RunOf(o, once, retry, [], c);
    RunOf(o, both, sweep, [retry] + [], c);
    RunOf(o, first, Append(q), [sweep] + ([retry] + []), c);
    RunOf(o, empty, Append(p), [Append(q)] + ([sweep] + ([retry] + [])), c);
  }

  function BothPending(o: Order, p: Id, q: Id): Table { Table(map[p := NewRow(o.time(p)), q := NewRow(o.time(q))], []) }

  lemma FirstSweep(o: Order, p: Id, q: Id, op: Op, c: Config)
    requires Ahead(o, p, q) && c.max >= 2 && c.batch >= 2
    requires op.Sweep? && op.claimed == [p, q] && |op.outs| == 2 && op.outs[0].Failed? && op.outs[1].Delivered? && op.commits
    ensures Enabled(BothPending(o, p, q), op, c)
    ensures var once := Apply(o, BothPending(o, p, q), op, c);
      once.sent == [q] && Claimable(once.rows, {}).Keys == {p}
  {
    var both := BothPending(o, p, q);
    assert Enabled(both, op, c);
    var once := Apply(o, both, op, c);
    TimesStay(o, both, op, c);
    AttemptedRow(o, both, op, c, 0);
    AttemptedRow(o, both, op, c, 1);
    OneOfTwo(op.claimed, op.outs);
    hide Writes, Deliveries, Apply, Enabled;
    assert forall id :: id in once.rows ==> id == p || id == q;
  }

  lemma OneOfTwo(claimed: seq<Id>, outs: seq<Outcome>)
    requires |claimed| == |outs| == 2 && outs[0].Failed? && outs[1].Delivered?
    ensures Deliveries(claimed, outs) == [claimed[1]]
  {
    var one := outs[..1];
    assert one[..0] == [] && |one| == 1 && one[0].Failed?;
    assert Deliveries(claimed, one[..0]) == [];
    assert Deliveries(claimed, one) == [];
    assert |outs| - 1 == 1;
  }

  lemma Retry(o: Order, t: Table, p: Id, op: Op, c: Config)
    requires c.batch >= 2 && Claimable(t.rows, {}).Keys == {p} && op.Sweep? && op.claimed == [p] && |op.outs| == 1
    ensures Enabled(t, op, c)
  {
  }

  lemma RetrySends(o: Order, t: Table, p: Id, op: Op, c: Config)
    requires Enabled(t, op, c) && op.Sweep? && op.claimed == [p] && |op.outs| == 1 && op.outs[0].Delivered?
    ensures Apply(o, t, op, c).sent == t.sent + [p]
  {
    AllDelivered(op.claimed, op.outs);
  }

  lemma OutOfOrder(o: Order, p: Id, q: Id)
    requires Ahead(o, p, q)
    ensures !InOrder(o, [q, p])
  {
    assert !InTime(o, [q], p) && [q, p][..1] == [q];
  }

  /** Two sweepers, each with one row of the batch size 1; nothing fails, and the second is faster. */
  function RacingRun(o: Order, p: Id, q: Id, out: Outcome): seq<P.Step> {
    [P.Append(p, o.time(p))] + ([P.Append(q, o.time(q))] + ([P.Claim(0, [p])] + ([P.Claim(1, [q])] +
      ([P.Attempt(1, out)] + ([P.Attempt(0, out)] + [])))))
  }

  function Claiming(o: Order, p: Id, q: Id, txns: map<P.Worker, P.Txn>): P.State {
    P.State(BothPending(o, p, q).rows, txns, map[], {p, q}, {}, [])
  }

  lemma FirstClaim(o: Order, p: Id, q: Id, c: P.Config)
    requires Ahead(o, p, q) && c.batch == 1
    ensures var s := Claiming(o, p, q, map[]);
      P.Enabled(s, P.Claim(0, [p]), c) && P.Apply(s, P.Claim(0, [p]), c) == Claiming(o, p, q, map[0 := P.Txn([p], [], map[])])
  {
  }

  lemma SecondClaim(o: Order, p: Id, q: Id, c: P.Config)
    requires Ahead(o, p, q) && c.batch == 1
    ensures var s := Claiming(o, p, q, map[0 := P.Txn([p], [], map[])]);
      && P.Enabled(s, P.Claim(1, [q]), c)
      && P.Apply(s, P.Claim(1, [q]), c) == Claiming(o, p, q, map[0 := P.Txn([p], [], map[]), 1 := P.Txn([q], [], map[])])
  {
    var s := Claiming(o, p, q, map[0 := P.Txn([p], [], map[])]);
    assert p in s.txns[0].claimed;
    assert forall id :: id in P.Locked(s) <==> id == p;
    assert Claimable(s.rows, P.Locked(s)).Keys == {q};
  }

  lemma Dispatch(s: P.State, w: P.Worker, id: Id, out: Outcome, c: P.Config)
    requires w in s.txns && s.txns[w].claimed == [id] && s.txns[w].outs == [] && id in s.rows && out.Delivered?
    ensures P.Enabled(s, P.Attempt(w, out), c)
    ensures var s' := P.Apply(s, P.Attempt(w, out), c);
      && s'.sent == s.sent + [id] && s'.rows == s.rows
      && forall v :: v in s.txns && v != w ==> v in s'.txns && s'.txns[v] == s.txns[v]
  {
  }

  /** Without any failure, two sweepers deliver out of order. */
  lemma SweepersRace(o: Order, p: Id, q: Id, out: Outcome, c: P.Config)
    requires o.kind(p) == o.kind(q) && o.time(p) < o.time(q) && c.batch == 1 && out.Delivered?
    ensures P.Legal(P.Init(), RacingRun(o, p, q, out), c)
    ensures P.Run(P.Init(), RacingRun(o, p, q, out), c).sent == [q, p] && !InOrder(o, [q, p])
  {
    OutOfOrder(o, p, q);
    var first := P.State(map[p := NewRow(o.time(p))], map[], map[], {p}, {}, []);
    var both := Claiming(o, p, q, map[]);
    var one := Claiming(o, p, q, map[0 := P.Txn([p], [], map[])]);
    var two := Claiming(o, p, q, map[0 := P.Txn([p], [], map[]), 1 := P.Txn([q], [], map[])]);
    var a, b := P.Append(p, o.time(p)), P.Append(q, o.time(q));
    assert P.Enabled(P.Init(), a, c) && P.Apply(P.Init(), a, c) == first;
    assert P.Enabled(first, b, c) && P.Apply(first, b, c) == both;
    FirstClaim(o, p, q, c);
    SecondClaim(o, p, q, c);
    Dispatch(two, 1, q, out, c);
    var sent1 := P.Apply(two, P.Attempt(1, out), c);
    Dispatch(sent1, 0, p, out, c);
    hide Ahead, P.Enabled, P.Apply, InOrder, BothPending, NewRow;
    var last: seq<P.Step> := [P.Attempt(0, out)] + [];
    P.RunOf(sent1, P.Attempt(0, out), [], c);
    P.RunOf(two, P.Attempt(1, out), last, c);
    P.RunOf(one, P.Claim(1, [q]), [P.Attempt(1, out)] + last, c);
    P.RunOf(both, P.Claim(0, [p]), [P.Claim(1, [q])] + ([P.Attempt(1, out)] + last), c);
    P.RunOf(first, b, [P.Claim(0, [p])] + ([P.Claim(1, [q])] + ([P.Attempt(1, out)] + last)), c);
    P.RunOf(P.Init(), a, [b] + ([P.Claim(0, [p])] + ([P.Claim(1, [q])] + ([P.Attempt(1, out)] + last))), c);
  }
}
