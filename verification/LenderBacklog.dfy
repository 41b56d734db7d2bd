/**
 Which decisions the lender poller ever gets to
 (apps/api/src/workers/lender-polling.worker.ts): the candidate query is
 limited and oldest first, and candidates that are never settled stay at its
 front.
 */
module LenderBacklog {
  import opened LenderPolling
  import opened OldestFirst
  import opened Wrappers

  /** The rows the candidate query looks at, with the times it orders them by. */
  function Times(decisions: map<Id, Decision>): map<Id, int> {
    map id | id in decisions && Candidate(decisions[id].state) :: decisions[id].decidedAt
  }

  /** The candidate query: the oldest candidates, up to the limit. */
  ghost predicate IsBatch(decisions: map<Id, Decision>, limit: nat, batch: seq<Id>) {
    IsAnswer(Times(decisions), limit, batch)
  }

  lemma BatchExists(decisions: map<Id, Decision>, limit: nat) returns (batch: seq<Id>)
    ensures IsBatch(decisions, limit, batch)
  {
    batch := AnswerExists(Times(decisions), limit);
  }

  /** A report that the decision is both decided and funded. */
  predicate Settling(h: Handling) {
    h.Call? && (h.reply.Report? || h.reply.Unlogged?) && h.reply.result.decision != PENDING && h.reply.result.funding == FUNDED
  }

  /** A polled row drops out of the query only when the report settles it; a decline alone never does. */
  lemma WhenPolledRowsDropOut(d: Decision, h: Handling)
    requires Candidate(d.state)
    ensures !Candidate(Polled1(d, h).state) <==> Settling(h) && d.externalId.Some?
    ensures !Candidate(Polled1(d, h).state) <==>
      h.Call? && (h.reply.Report? || h.reply.Unlogged?) && d.externalId.Some?
      && h.reply.result.decision != PENDING && h.reply.result.funding == FUNDED
    ensures Polled1(d, h).decidedAt == d.decidedAt
  {
  }

  /**
   Read off the table before the query: a candidate is in the next batch only
   if fewer candidates than the limit are older, and if fewer others than the
   limit are not younger; where no two share a time, if and only if.
   */
  lemma WhenACandidateIsSelected(decisions: map<Id, Decision>, limit: nat, batch: seq<Id>, g: Id)
    requires IsBatch(decisions, limit, batch) && g in Times(decisions)
    ensures g in batch ==> |Older(Times(decisions), Times(decisions)[g])| < limit
    ensures |NotYounger(Times(decisions), g)| < limit ==> g in batch
    ensures DistinctTimes(Times(decisions)) ==> (g in batch <==> |Older(Times(decisions), Times(decisions)[g])| < limit)
  {
    WhenSelected(Times(decisions), limit, batch, g);
  }

  // ---------------------------------------------------------------- batch after batch

  /** One poll of a batch, or something else that writes the table between polls. */
  datatype Turn =
    | Poll(batch: seq<Id>, order: seq<nat>, hs: seq<Handling>)
    | Other(step: Step)

  ghost predicate IsTurn(db: Db, limit: nat, t: Turn) {
    match t
    case Poll(batch, order, hs) => IsBatch(db.decisions, limit, batch) && IsOrderOf(order, batch) && |hs| == |order|
    case Other(step) => !step.PollStep?
  }

  ghost function ApplyTurn(db: Db, limit: nat, t: Turn): Db
    requires IsTurn(db, limit, t)
  {
    match t
    case Poll(batch, order, hs) => HandleAll(db, batch, order, hs)
    case Other(step) => ApplyDb(db, step)
  }

  ghost predicate Turns(db: Db, limit: nat, turns: seq<Turn>)
    decreases |turns|
  {
    turns == [] || (IsTurn(db, limit, turns[0]) && Turns(ApplyTurn(db, limit, turns[0]), limit, turns[1..]))
  }

  ghost function Final(db: Db, limit: nat, turns: seq<Turn>): Db
    requires Turns(db, limit, turns)
    decreases |turns|
  {
    if turns == [] then db else Final(ApplyTurn(db, limit, turns[0]), limit, turns[1..])
  }

  /** The decision is in one of the polled batches. */
  predicate EverPolled(turns: seq<Turn>, g: Id)
    decreases |turns|
  {
    turns != [] && ((turns[0].Poll? && g in turns[0].batch) || EverPolled(turns[1..], g))
  }

  /** The turn brings the decision no report that it is both decided and funded. */
  predicate Spares(t: Turn, id: Id) {
    t.Poll? && |t.hs| == |t.order| ==>
      forall i :: 0 <= i < |t.order| && t.order[i] < |t.batch| && t.batch[t.order[i]] == id ==> !Settling(t.hs[i])
  }

  /** A candidate that cannot be settled by what the turns report of it. */
  ghost predicate Unsettled(db: Db, turns: seq<Turn>, id: Id) {
    && id in db.decisions && Candidate(db.decisions[id].state)
    && (db.decisions[id].externalId.None? || forall t :: t in turns ==> Spares(t, id))
  }

  /** A row after a turn: untouched unless it was in the polled batch. */
  lemma RowAfterTurn(db: Db, limit: nat, t: Turn, id: Id)
    requires IsTurn(db, limit, t) && id in db.decisions
    ensures id in ApplyTurn(db, limit, t).decisions
    ensures var d, d' := db.decisions[id], ApplyTurn(db, limit, t).decisions[id];
      && d'.decidedAt == d.decidedAt && d'.externalId == d.externalId
      && (!(t.Poll? && id in t.batch) ==> d' == d)
      && (Candidate(d.state) && (d.externalId.None? || Spares(t, id)) ==> Candidate(d'.state))
  {
    if t.Poll? {
      BatchIsStored(db, limit, t);
      HandlingKeepsKeys(db, t.batch, t.order, t.hs);
      if id in t.batch {
        var k :| 0 <= k < |t.batch| && t.batch[k] == id;
        var i := RowAfter(db, t.batch, t.order, t.hs, k);
        PolledRow(db.decisions[id], t.hs[i]);
      } else {
        assert forall i :: 0 <= i < |t.order| ==> t.batch[t.order[i]] in t.batch;
        OrderDoesNotMatter(db, t.batch, t.order, t.hs, id);
      }
    }
    hide HandleAll, Candidate, IsBatch;
  }

  lemma PolledRow(d: Decision, h: Handling)
    ensures Polled1(d, h).decidedAt == d.decidedAt && Polled1(d, h).externalId == d.externalId
    ensures Candidate(d.state) && (d.externalId.None? || !Settling(h)) ==> Candidate(Polled1(d, h).state)
  {
  }

  lemma BatchIsStored(db: Db, limit: nat, t: Turn)
    requires IsTurn(db, limit, t) && t.Poll?
    ensures DistinctIds(t.batch) && InBatch(db, t.batch)
    ensures forall id :: id in t.batch ==> id in Times(db.decisions)
  {
  }

  /** The same batch is an answer of the next query again exactly when none of its rows was settled. */
  lemma WhenABatchRepeats(db: Db, limit: nat, t: Turn)
    requires IsTurn(db, limit, t) && t.Poll?
    ensures BatchIds(db, t)
    ensures IsBatch(ApplyTurn(db, limit, t).decisions, limit, t.batch) <==>
      forall i :: 0 <= i < |t.order| ==> Candidate(Polled1(db.decisions[t.batch[t.order[i]]], t.hs[i]).state)
  {
    hide Candidate, Polled1, IsBatch, HandleAll;
    BatchIsStored(db, limit, t);
    HandlingKeepsKeys(db, t.batch, t.order, t.hs);
    var after := ApplyTurn(db, limit, t).decisions;
    PolledRows(db, limit, t);
    forall id | id in db.decisions
      ensures after[id].decidedAt == db.decisions[id].decidedAt && (id !in t.batch ==> after[id] == db.decisions[id])
    {
      RowAfterTurn(db, limit, t, id);
    }
    hide ApplyTurn, IsOrderOf;
    StaysABatch(db.decisions, after, limit, t.batch);
    forall k: nat | k < |t.batch| && forall i :: 0 <= i < |t.order| ==> Candidate(after[t.batch[t.order[i]]].state)
      ensures Candidate(after[t.batch[k]].state)
    {
      var i := Position(t.order, t.batch, k);
    }
  }

  lemma PolledRows(db: Db, limit: nat, t: Turn)
    requires IsTurn(db, limit, t) && t.Poll? && DistinctIds(t.batch) && InBatch(db, t.batch)
    ensures BatchIds(db, t)
    ensures ApplyTurn(db, limit, t).decisions.Keys == db.decisions.Keys
    ensures forall i :: 0 <= i < |t.order| ==>
      ApplyTurn(db, limit, t).decisions[t.batch[t.order[i]]] == Polled1(db.decisions[t.batch[t.order[i]]], t.hs[i])
  {
    hide Candidate, Polled1, IsBatch, HandleAll;
    HandlingKeepsKeys(db, t.batch, t.order, t.hs);
    forall i | 0 <= i < |t.order|
      ensures ApplyTurn(db, limit, t).decisions[t.batch[t.order[i]]] == Polled1(db.decisions[t.batch[t.order[i]]], t.hs[i])
    {
      var j := RowAfter(db, t.batch, t.order, t.hs, t.order[i]);
    }
  }

  /** The turn's batch and order fit the table. */
  predicate BatchIds(db: Db, t: Turn)
    requires t.Poll?
  {
    |t.hs| == |t.order| && forall i :: 0 <= i < |t.order| ==> t.order[i] < |t.batch| && t.batch[t.order[i]] in db.decisions
  }

  lemma StaysABatch(before: map<Id, Decision>, after: map<Id, Decision>, limit: nat, batch: seq<Id>)
    requires IsBatch(before, limit, batch) && after.Keys == before.Keys
    requires forall id :: id in before ==> after[id].decidedAt == before[id].decidedAt
    requires forall id :: id in before && id !in batch ==> after[id] == before[id]
    ensures forall k :: 0 <= k < |batch| ==> batch[k] in after
    ensures IsBatch(after, limit, batch) <==> forall k :: 0 <= k < |batch| ==> Candidate(after[batch[k]].state)
  {
    hide Candidate;
    if forall k :: 0 <= k < |batch| ==> Candidate(after[batch[k]].state) {
      assert Times(after) == Times(before) by {
        assert forall id :: id in batch ==> exists k :: 0 <= k < |batch| && batch[k] == id;
      }
    } else {
      assert exists k :: 0 <= k < |batch| && batch[k] !in Times(after);
    }
  }

  /**
   Starvation: behind a limit's worth of older candidates that are never
   settled (declined ones, or ones the lender cannot be asked about), a
   decision is never polled, by any number of batches and whatever else is
   submitted or created meanwhile.
   */
  lemma {:induction false} NeverPolled(db: Db, limit: nat, turns: seq<Turn>, g: Id, front: set<Id>)
    requires Turns(db, limit, turns) && g in Times(db.decisions) && |front| >= limit
    requires forall id :: id in front ==> Unsettled(db, turns, id) && db.decisions[id].decidedAt < db.decisions[g].decidedAt
    ensures !EverPolled(turns, g)
    ensures g in Final(db, limit, turns).decisions && Final(db, limit, turns).decisions[g] == db.decisions[g]
    decreases |turns|
  {
    if turns != [] {
      var t, db' := turns[0], ApplyTurn(db, limit, turns[0]);
      NotSelected(db, limit, turns, g, front);
      RowAfterTurn(db, limit, t, g);
      forall id | id in front
        ensures Unsettled(db', turns[1..], id) && db'.decisions[id].decidedAt < db'.decisions[g].decidedAt
      {
        StaysUnsettled(db, limit, turns, id);
      }
      hide IsTurn, ApplyTurn, Unsettled;
      NeverPolled(db', limit, turns[1..], g, front);
    }
  }

  lemma StaysUnsettled(db: Db, limit: nat, turns: seq<Turn>, id: Id)
    requires turns != [] && IsTurn(db, limit, turns[0]) && Unsettled(db, turns, id)
    ensures Unsettled(ApplyTurn(db, limit, turns[0]), turns[1..], id)
    ensures ApplyTurn(db, limit, turns[0]).decisions[id].decidedAt == db.decisions[id].decidedAt
  {
    RowAfterTurn(db, limit, turns[0], id);
    hide IsTurn, ApplyTurn, Candidate, Spares;
    assert turns[0] in turns && forall t :: t in turns[1..] ==> t in turns;
  }

  lemma NotSelected(db: Db, limit: nat, turns: seq<Turn>, g: Id, front: set<Id>)
    requires turns != [] && IsTurn(db, limit, turns[0]) && g in Times(db.decisions) && |front| >= limit
    requires forall id :: id in front ==> Unsettled(db, turns, id) && db.decisions[id].decidedAt < db.decisions[g].decidedAt
    ensures turns[0].Poll? ==> g !in turns[0].batch
  {
    if turns[0].Poll? {
      WhenACandidateIsSelected(db.decisions, limit, turns[0].batch, g);
      SubsetCount(front, Older(Times(db.decisions), Times(db.decisions)[g]));
    }
  }

  // ---------------------------------------------------------------- reached in the end

  /** Every poll of a decision settles it, or none does, as `settles` says. */
  ghost predicate Consistent(db: Db, t: Turn, settles: Id -> bool) {
    && t.Poll? && IsOrderOf(t.order, t.batch) && |t.hs| == |t.order| && InBatch(db, t.batch)
    && forall i :: 0 <= i < |t.order| ==>
         (Candidate(Polled1(db.decisions[t.batch[t.order[i]]], t.hs[i]).state) <==> !settles(t.batch[t.order[i]]))
  }

  ghost predicate AllConsistent(db: Db, limit: nat, turns: seq<Turn>, settles: Id -> bool)
    requires Turns(db, limit, turns)
    decreases |turns|
  {
    turns == [] ||
    (Consistent(db, turns[0], settles) && AllConsistent(ApplyTurn(db, limit, turns[0]), limit, turns[1..], settles))
  }

  /** The rows of a set that polling never settles. */
  function Stuck(ids: set<Id>, settles: Id -> bool): set<Id> { set id | id in ids && !settles(id) }

  /** A consistent poll takes exactly the settled rows of its batch out of the query. */
  lemma PollSettles(db: Db, limit: nat, t: Turn, settles: Id -> bool)
    requires IsTurn(db, limit, t) && Consistent(db, t, settles)
    ensures ApplyTurn(db, limit, t).decisions.Keys == db.decisions.Keys
    ensures Times(ApplyTurn(db, limit, t).decisions) ==
      map id | id in Times(db.decisions) && !(id in t.batch && settles(id)) :: Times(db.decisions)[id]
  {
    BatchIsStored(db, limit, t);
    HandlingKeepsKeys(db, t.batch, t.order, t.hs);
    var after := ApplyTurn(db, limit, t).decisions;
    forall id | id in db.decisions
      ensures after[id].decidedAt == db.decisions[id].decidedAt
      ensures id !in t.batch ==> after[id] == db.decisions[id]
      ensures id in t.batch ==> (Candidate(after[id].state) <==> !settles(id))
    {
      RowAfterTurn(db, limit, t, id);
      if id in t.batch {
        var k :| 0 <= k < |t.batch| && t.batch[k] == id;
        var i := RowAfter(db, t.batch, t.order, t.hs, k);
      }
    }
    hide ApplyTurn, Candidate, IsTurn, Consistent;
  }

  /** While a decision is passed over, some other not younger than it is settled. */
  lemma QueueShrinks(db: Db, limit: nat, t: Turn, settles: Id -> bool, g: Id)
    requires IsTurn(db, limit, t) && Consistent(db, t, settles) && g in Times(db.decisions) && g !in t.batch
    requires |Stuck(NotYounger(Times(db.decisions), g), settles)| < limit
    ensures var before, after := Times(db.decisions), Times(ApplyTurn(db, limit, t).decisions);
      && g in after && after[g] == before[g]
      && |NotYounger(after, g)| < |NotYounger(before, g)|
      && |Stuck(NotYounger(after, g), settles)| < limit
  {
    var before := Times(db.decisions);
    PollSettles(db, limit, t, settles);
    var x := SomeSettles(before, limit, t.batch, settles, g);
    hide ApplyTurn, Times, IsTurn, Consistent;
    var after := Times(ApplyTurn(db, limit, t).decisions);
    assert after == map id | id in before && !(id in t.batch && settles(id)) :: before[id];
    assert NotYounger(after, g) <= NotYounger(before, g) - {x};
    SubsetCount(NotYounger(after, g), NotYounger(before, g) - {x});
    SubsetCount(Stuck(NotYounger(after, g), settles), Stuck(NotYounger(before, g), settles));
  }

  lemma SomeSettles(times: map<Id, int>, limit: nat, batch: seq<Id>, settles: Id -> bool, g: Id) returns (x: Id)
    requires IsAnswer(times, limit, batch) && g in times && g !in batch
    requires |Stuck(NotYounger(times, g), settles)| < limit
    ensures x in batch && settles(x) && x in NotYounger(times, g)
  {
    forall id | id in batch ensures id in NotYounger(times, g) {
      SelectedBeforeYounger(times, limit, batch, id, g);
    }
    FullWhenLeftOut(times, limit, batch, g);
    DistinctCount(batch);
    if forall id :: id in batch ==> !settles(id) {
      SubsetCount(Elements(batch), Stuck(NotYounger(times, g), settles));
    }
    x :| x in batch && settles(x);
  }

  /** With fewer stuck rows than the limit among those not younger than it, a decision is polled within one batch more than there are such rows. */
  lemma {:induction false} PolledInTime(db: Db, limit: nat, turns: seq<Turn>, settles: Id -> bool, g: Id)
    requires Turns(db, limit, turns) && AllConsistent(db, limit, turns, settles) && g in Times(db.decisions)
    requires |Stuck(NotYounger(Times(db.decisions), g), settles)| < limit
    requires |turns| > |NotYounger(Times(db.decisions), g)|
    ensures EverPolled(turns, g)
    decreases |turns|
  {
    hide Stuck, NotYounger, Times, IsTurn, Consistent, ApplyTurn;
    if !(turns[0].Poll? && g in turns[0].batch) {
      ConsistentIsPoll(db, turns[0], settles);
      QueueShrinks(db, limit, turns[0], settles, g);
      PolledInTime(ApplyTurn(db, limit, turns[0]), limit, turns[1..], settles, g);
    }
  }

  lemma ConsistentIsPoll(db: Db, t: Turn, settles: Id -> bool)
    requires Consistent(db, t, settles)
    ensures t.Poll?
  {
  }

  /** Behind a limit's worth of stuck rows it is never polled. */
  lemma {:induction false} StuckRowsBlock(db: Db, limit: nat, turns: seq<Turn>, settles: Id -> bool, g: Id)
    requires Turns(db, limit, turns) && AllConsistent(db, limit, turns, settles) && g in Times(db.decisions)
    requires |Stuck(Older(Times(db.decisions), Times(db.decisions)[g]), settles)| >= limit
    ensures !EverPolled(turns, g)
    decreases |turns|
  {
    if turns != [] {
      var t, before := turns[0], Times(db.decisions);
      ConsistentIsPoll(db, t, settles);
      SubsetCount(Stuck(Older(before, before[g]), settles), Older(before, before[g]));
      WhenACandidateIsSelected(db.decisions, limit, t.batch, g);
      PollSettles(db, limit, t, settles);
      hide ApplyTurn, Times, IsTurn, Consistent;
      var after := Times(ApplyTurn(db, limit, t).decisions);
      assert Stuck(Older(after, after[g]), settles) == Stuck(Older(before, before[g]), settles);
      StuckRowsBlock(ApplyTurn(db, limit, t), limit, turns[1..], settles, g);
    }
  }

  /**
   A decision's fate is decided by the table the poller starts from: with
   distinct times, enough batches and lenders that settle a decision when
   polled or never, it is polled if and only if fewer older candidates than the
   limit are never settled.
   */
  lemma WhenADecisionIsPolled(db: Db, limit: nat, turns: seq<Turn>, settles: Id -> bool, g: Id)
    requires Turns(db, limit, turns) && AllConsistent(db, limit, turns, settles) && g in Times(db.decisions)
    requires DistinctTimes(Times(db.decisions)) && |turns| > |NotYounger(Times(db.decisions), g)|
    ensures EverPolled(turns, g) <==> |Stuck(Older(Times(db.decisions), Times(db.decisions)[g]), settles)| < limit
  {
    var times := Times(db.decisions);
    assert NotYounger(times, g) == Older(times, times[g]);
    hide Times, Older, NotYounger, Stuck;
    if |Stuck(Older(times, times[g]), settles)| < limit {
      PolledInTime(db, limit, turns, settles, g);
    } else {
      StuckRowsBlock(db, limit, turns, settles, g);
    }
  }

  /** No report says that anything was funded. */
  predicate NeverFunded(hs: seq<Handling>) {
    forall i :: 0 <= i < |hs| && hs[i].Call? && (hs[i].reply.Report? || hs[i].reply.Unlogged?) ==>
      hs[i].reply.result.funding != FUNDED
  }

  /** An instance: one declined decision and a limit of one keep a younger pending one from ever being polled. */
  lemma ADeclineBlocks(turns: seq<Turn>)
    requires var declined, pending := NewState().(decision := DECLINED), NewState();
      Turns(Db(map[0 := Decision(Some("a"), 0, declined), 1 := Decision(Some("b"), 1, pending)], []), 1, turns)
    requires forall t :: t in turns && t.Poll? ==> NeverFunded(t.hs)
    ensures !EverPolled(turns, 1)
  {
    assert forall t :: t in turns ==> Spares(t, 0);
    var declined, pending := NewState().(decision := DECLINED), NewState();
    var db := Db(map[0 := Decision(Some("a"), 0, declined), 1 := Decision(Some("b"), 1, pending)], []);
    assert Unsettled(db, turns, 0);
    hide Turns, Spares, EverPolled, Unsettled;
    NeverPolled(db, 1, turns, 1, {0});
  }
}
