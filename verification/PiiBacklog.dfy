/**
 Whether the migration gets anywhere: which rows a batch can move, which it can
 never reach, and when the backlog drains
 (apps/api/src/workers/pii-reencryption.worker.ts).
 */
module PiiBacklog {
  import OldestFirst
  import opened PiiReencryption

  /** Rows the worker can move, and rows it will fail on for ever. */
  predicate Good(c: Crypto, keyed: set<Org>, r: Row) { Candidate(r) && Decryptable(c, r) && r.org in keyed }

  predicate Bad(c: Crypto, keyed: set<Org>, r: Row) { Candidate(r) && !Good(c, keyed, r) }

  function GoodRows(c: Crypto, keyed: set<Org>, table: map<Id, Row>): (ids: set<Id>)
    ensures ids <= table.Keys
  {
    set id | id in table && Good(c, keyed, table[id])
  }

  function BadRows(c: Crypto, keyed: set<Org>, table: map<Id, Row>): (ids: set<Id>)
    ensures ids <= table.Keys
  {
    set id | id in table && Bad(c, keyed, table[id])
  }

  /** What the batch query returns: the oldest candidates, up to the limit. */
  predicate IsBatch(table: map<Id, Row>, limit: nat, batch: seq<Item>) {
    && Distinct(batch) && |batch| <= limit
    && (forall i :: 0 <= i < |batch| ==>
         batch[i].id in table && table[batch[i].id] == batch[i].row && Candidate(batch[i].row))
    && (forall i, j :: 0 <= i < j < |batch| ==> batch[i].row.createdAt <= batch[j].row.createdAt)
    && (forall id :: id in table && Candidate(table[id]) && (forall i :: 0 <= i < |batch| ==> batch[i].id != id) ==>
         |batch| == limit && forall i :: 0 <= i < |batch| ==> batch[i].row.createdAt <= table[id].createdAt)
  }

  /** Nothing but a missing key stops an encryption. */
  predicate OnlyKeysFail(e: Env, keyed: set<Org>, batch: seq<Item>) {
    forall i :: 0 <= i < |batch| ==> (e.ok(i) <==> batch[i].row.org in keyed)
  }

  function GoodInBatch(c: Crypto, keyed: set<Org>, batch: seq<Item>): set<Id> {
    set i | 0 <= i < |batch| && Good(c, keyed, batch[i].row) :: batch[i].id
  }

  /** One batch takes exactly its good rows out of the backlog and leaves the bad ones where they are. */
  lemma BatchMovesItsGoodRows(
    e: Env, keyed: set<Org>, table: map<Id, Row>, limit: nat, batch: seq<Item>, after: map<Id, Row>)
    requires Sound(e.crypto) && IsBatch(table, limit, batch) && OnlyKeysFail(e, keyed, batch)
    requires IsAfter(e, table, batch, Upto(|batch|), after)
    ensures GoodRows(e.crypto, keyed, after) == GoodRows(e.crypto, keyed, table) - GoodInBatch(e.crypto, keyed, batch)
    ensures BadRows(e.crypto, keyed, after) == BadRows(e.crypto, keyed, table)
  {
    hide Good, Bad, IsBatch, IsAfter, OnlyKeysFail, Sound;
    SameIds(e, table, batch, Upto(|batch|), after);
    forall id | id in table
      ensures Good(e.crypto, keyed, after[id]) <==>
        Good(e.crypto, keyed, table[id]) && id !in GoodInBatch(e.crypto, keyed, batch)
      ensures Bad(e.crypto, keyed, after[id]) <==> Bad(e.crypto, keyed, table[id])
    {
      if exists i :: 0 <= i < |batch| && batch[i].id == id {
        var i :| 0 <= i < |batch| && batch[i].id == id;
        ItemMoves(e, keyed, table, limit, batch, after, i);
      } else {
        Untouched(e, table, batch, Upto(|batch|), after, id);
      }
    }
  }

  lemma SameIds(e: Env, table: map<Id, Row>, batch: seq<Item>, done: set<nat>, after: map<Id, Row>)
    requires IsAfter(e, table, batch, done, after)
    ensures after.Keys == table.Keys
  {
  }

  lemma Untouched(e: Env, table: map<Id, Row>, batch: seq<Item>, done: set<nat>, after: map<Id, Row>, id: Id)
    requires IsAfter(e, table, batch, done, after) && id in table
    requires forall i :: 0 <= i < |batch| ==> batch[i].id != id
    ensures after[id] == table[id]
  {
  }

  lemma ItemMoves(
    e: Env, keyed: set<Org>, table: map<Id, Row>, limit: nat, batch: seq<Item>, after: map<Id, Row>, i: nat)
    requires Sound(e.crypto) && IsBatch(table, limit, batch) && OnlyKeysFail(e, keyed, batch)
    requires IsAfter(e, table, batch, Upto(|batch|), after) && i < |batch|
    ensures var id := batch[i].id;
      && id in table && id in after
      && (Good(e.crypto, keyed, table[id]) <==> id in GoodInBatch(e.crypto, keyed, batch))
      && !Good(e.crypto, keyed, after[id])
      && (Bad(e.crypto, keyed, after[id]) <==> Bad(e.crypto, keyed, table[id]))
  {
    hide Upgraded, Sound;
    if Succeeds(e, batch, i) {
      UpgradeKeepsMeaning(e.crypto, batch[i].row, table[batch[i].id], e.nonces(i));
    }
  }

  function BatchIds(batch: seq<Item>): set<Id> { set i | 0 <= i < |batch| :: batch[i].id }

  lemma {:induction false} DistinctIdsCount(batch: seq<Item>)
    requires Distinct(batch)
    ensures |BatchIds(batch)| == |batch|
  {
    if batch != [] {
      var n := |batch| - 1;
      DistinctIdsCount(batch[..n]);
      assert BatchIds(batch) == BatchIds(batch[..n]) + {batch[n].id};
    }
  }

  /** The bad rows older than an instant, and those not younger. */
  function OlderBad(c: Crypto, keyed: set<Org>, table: map<Id, Row>, t: int): set<Id> {
    set id | id in BadRows(c, keyed, table) && table[id].createdAt < t
  }

  function NotYoungerBad(c: Crypto, keyed: set<Org>, table: map<Id, Row>, t: int): set<Id> {
    set id | id in BadRows(c, keyed, table) && table[id].createdAt <= t
  }

  /** No two rows were created at the same instant. */
  predicate DistinctTimes(table: map<Id, Row>) {
    forall a, b :: a in table && b in table && table[a].createdAt == table[b].createdAt ==> a == b
  }

  predicate InBatch(batch: seq<Item>, id: Id) { exists i :: 0 <= i < |batch| && batch[i].id == id }

  /** With distinct times a row that is not bad has the same bad rows on either side of the bound. */
  lemma TimesDecide(c: Crypto, keyed: set<Org>, table: map<Id, Row>, g: Id)
    requires DistinctTimes(table) && g in GoodRows(c, keyed, table)
    ensures OlderBad(c, keyed, table, table[g].createdAt) == NotYoungerBad(c, keyed, table, table[g].createdAt)
  {
  }

  /** A selected row has fewer than a batch of bad rows before it. */
  lemma SelectedIsNearTheFront(c: Crypto, keyed: set<Org>, table: map<Id, Row>, limit: nat, batch: seq<Item>, g: Id)
    requires IsBatch(table, limit, batch) && g in GoodRows(c, keyed, table) && InBatch(batch, g)
    ensures |OlderBad(c, keyed, table, table[g].createdAt)| < limit
  {
    hide Good;
    var older := OlderBad(c, keyed, table, table[g].createdAt);
    forall id | id in older ensures id in BatchIds(batch) - {g} {
      if forall i :: 0 <= i < |batch| ==> batch[i].id != id {
        OthersAreYounger(table, limit, batch, id, g);
      }
    }
    DistinctIdsCount(batch);
    OldestFirst.SubsetCount(older, BatchIds(batch) - {g});
  }

  lemma OthersAreYounger(table: map<Id, Row>, limit: nat, batch: seq<Item>, out: Id, g: Id)
    requires IsBatch(table, limit, batch) && out in table && Candidate(table[out]) && !InBatch(batch, out)
    requires InBatch(batch, g) && g in table
    ensures table[g].createdAt <= table[out].createdAt && |batch| == limit
  {
    var i :| 0 <= i < |batch| && batch[i].id == g;
    assert table[batch[i].id] == batch[i].row;
    assert forall j :: 0 <= j < |batch| ==> batch[j].id != out;
  }

  /** A good row passed over by a batch without good rows has at least a batch of bad rows not younger than it. */
  lemma PassedOverIsFarBack(c: Crypto, keyed: set<Org>, table: map<Id, Row>, limit: nat, batch: seq<Item>, g: Id)
    requires IsBatch(table, limit, batch) && g in GoodRows(c, keyed, table) && GoodInBatch(c, keyed, batch) == {}
    ensures |NotYoungerBad(c, keyed, table, table[g].createdAt)| >= limit
  {
    assert forall i :: 0 <= i < |batch| && Good(c, keyed, batch[i].row) ==> batch[i].id in GoodInBatch(c, keyed, batch);
    assert forall i :: 0 <= i < |batch| ==> batch[i].id != g && Bad(c, keyed, batch[i].row);
    hide Good, Bad;
    var notYounger := NotYoungerBad(c, keyed, table, table[g].createdAt);
    forall id | id in BatchIds(batch) ensures id in notYounger {
      var i :| 0 <= i < |batch| && batch[i].id == id;
      assert table[batch[i].id] == batch[i].row;
      assert !InBatch(batch, g) && InBatch(batch, id) && Candidate(table[g]) by { GoodIsCandidate(c, keyed, table, g); }
      OthersAreYounger(table, limit, batch, g, id);
    }
    DistinctIdsCount(batch);
    OldestFirst.SubsetCount(BatchIds(batch), notYounger);
    GoodIsCandidate(c, keyed, table, g);
    assert forall i :: 0 <= i < |batch| ==> batch[i].id != g;
  }

  lemma GoodIsCandidate(c: Crypto, keyed: set<Org>, table: map<Id, Row>, g: Id)
    requires g in GoodRows(c, keyed, table)
    ensures g in table && Candidate(table[g])
  {
  }

  /**
   Starvation, read off the table before the query runs: a batch moves a good
   row if some good row has fewer than a batch of bad rows not younger than it,
   and only if some good row has fewer than a batch of older bad rows; where
   no two rows share an instant, if and only if.
   */
  lemma WhenABatchMoves(c: Crypto, keyed: set<Org>, table: map<Id, Row>, limit: nat, batch: seq<Item>)
    requires IsBatch(table, limit, batch)
    ensures (exists g :: g in GoodRows(c, keyed, table) && |NotYoungerBad(c, keyed, table, table[g].createdAt)| < limit)
      ==> GoodInBatch(c, keyed, batch) != {}
    ensures GoodInBatch(c, keyed, batch) != {}
      ==> exists g :: g in GoodRows(c, keyed, table) && |OlderBad(c, keyed, table, table[g].createdAt)| < limit
    ensures DistinctTimes(table) ==>
      (GoodInBatch(c, keyed, batch) != {} <==>
        exists g :: g in GoodRows(c, keyed, table) && |OlderBad(c, keyed, table, table[g].createdAt)| < limit)
  {
    hide Good, Bad, OlderBad, NotYoungerBad, DistinctTimes;
    if GoodInBatch(c, keyed, batch) == {} {
      forall g | g in GoodRows(c, keyed, table)
        ensures |NotYoungerBad(c, keyed, table, table[g].createdAt)| >= limit
        ensures DistinctTimes(table) ==> |OlderBad(c, keyed, table, table[g].createdAt)| >= limit
      {
        PassedOverIsFarBack(c, keyed, table, limit, batch, g);
        if DistinctTimes(table) { TimesDecide(c, keyed, table, g); }
      }
    } else {
      GoodOfBatchAreGood(c, keyed, table, limit, batch);
      var g :| g in GoodInBatch(c, keyed, batch);
      SelectedIsNearTheFront(c, keyed, table, limit, batch, g);
    }
  }

  lemma GoodOfBatchAreGood(c: Crypto, keyed: set<Org>, table: map<Id, Row>, limit: nat, batch: seq<Item>)
    requires IsBatch(table, limit, batch)
    ensures GoodInBatch(c, keyed, batch) <= GoodRows(c, keyed, table)
  {
  }

  function Times(table: map<Id, Row>): map<Id, int> {
    map id | id in table && Candidate(table[id]) :: table[id].createdAt
  }

  function Items(table: map<Id, Row>, ids: seq<Id>): seq<Item>
    requires forall i :: 0 <= i < |ids| ==> ids[i] in table
  {
    seq(|ids|, i requires 0 <= i < |ids| => Item(ids[i], table[ids[i]]))
  }

  lemma AnswerIsBatch(table: map<Id, Row>, limit: nat, ids: seq<Id>)
    requires OldestFirst.IsAnswer(Times(table), limit, ids)
    ensures forall i :: 0 <= i < |ids| ==> ids[i] in table
    ensures IsBatch(table, limit, Items(table, ids))
  {
    hide Candidate;
    var batch := Items(table, ids);
    forall id | id in table && (forall i :: 0 <= i < |batch| ==> batch[i].id != id) ensures id !in ids {
      assert forall i :: 0 <= i < |ids| ==> batch[i].id == ids[i];
    }
  }

  /** The query always has an answer. */
  lemma BatchExists(table: map<Id, Row>, limit: nat) returns (batch: seq<Item>)
    ensures IsBatch(table, limit, batch)
  {
    var ids := OldestFirst.AnswerExists(Times(table), limit);
    AnswerIsBatch(table, limit, ids);
    batch := Items(table, ids);
  }

  // ---------------------------------------------------------------- batch after batch

  /** One batch of the migration: what was selected, how its items fared, and the table it left. */
  datatype Turn = Turn(e: Env, batch: seq<Item>, after: map<Id, Row>)

  ghost predicate IsTurn(c: Crypto, keyed: set<Org>, table: map<Id, Row>, limit: nat, t: Turn) {
    && t.e.crypto == c
    && IsBatch(table, limit, t.batch)
    && OnlyKeysFail(t.e, keyed, t.batch)
    && IsAfter(t.e, table, t.batch, Upto(|t.batch|), t.after)
  }

  /** Consecutive batches, each over the table the last one left. */
  ghost predicate Batches(c: Crypto, keyed: set<Org>, table: map<Id, Row>, limit: nat, turns: seq<Turn>)
    decreases |turns|
  {
    turns == [] || (IsTurn(c, keyed, table, limit, turns[0]) && Batches(c, keyed, turns[0].after, limit, turns[1..]))
  }

  function Final(table: map<Id, Row>, turns: seq<Turn>): map<Id, Row>
    decreases |turns|
  {
    if turns == [] then table else Final(turns[0].after, turns[1..])
  }

  /** What one batch does: its good rows leave the backlog, and no other row is touched. */
  lemma TurnMoves(c: Crypto, keyed: set<Org>, table: map<Id, Row>, limit: nat, t: Turn)
    requires Sound(c) && IsTurn(c, keyed, table, limit, t)
    ensures t.after.Keys == table.Keys
    ensures GoodRows(c, keyed, t.after) == GoodRows(c, keyed, table) - GoodInBatch(c, keyed, t.batch)
    ensures BadRows(c, keyed, t.after) == BadRows(c, keyed, table)
    ensures forall id :: id in table && id !in GoodInBatch(c, keyed, t.batch) ==> t.after[id] == table[id]
    ensures forall id :: id in table ==> t.after[id].createdAt == table[id].createdAt
  {
    BatchMovesItsGoodRows(t.e, keyed, table, limit, t.batch, t.after);
    SameIds(t.e, table, t.batch, Upto(|t.batch|), t.after);
    hide GoodRows, BadRows;
    forall id | id in table
      ensures id !in GoodInBatch(c, keyed, t.batch) ==> t.after[id] == table[id]
      ensures t.after[id].createdAt == table[id].createdAt
    {
      RowAfterTurn(c, keyed, table, limit, t, id);
    }
  }

  lemma RowAfterTurn(c: Crypto, keyed: set<Org>, table: map<Id, Row>, limit: nat, t: Turn, id: Id)
    requires IsTurn(c, keyed, table, limit, t) && id in table
    ensures id in t.after && t.after[id].createdAt == table[id].createdAt
    ensures id !in GoodInBatch(c, keyed, t.batch) ==> t.after[id] == table[id]
  {
    SameIds(t.e, table, t.batch, Upto(|t.batch|), t.after);
    if i :| 0 <= i < |t.batch| && t.batch[i].id == id {
      ItemAfterTurn(c, keyed, table, limit, t, i);
    } else {
      Untouched(t.e, table, t.batch, Upto(|t.batch|), t.after, id);
    }
  }

  lemma ItemAfterTurn(c: Crypto, keyed: set<Org>, table: map<Id, Row>, limit: nat, t: Turn, i: nat)
    requires IsTurn(c, keyed, table, limit, t) && i < |t.batch|
    ensures var id := t.batch[i].id;
      && id in table && id in t.after && t.after[id].createdAt == table[id].createdAt
      && (id !in GoodInBatch(c, keyed, t.batch) ==> t.after[id] == table[id])
  {
    hide Upto;
    assert Good(c, keyed, t.batch[i].row) ==> t.batch[i].id in GoodInBatch(c, keyed, t.batch);
  }

  /** The bad rows before an instant are the same from batch to batch, and so are the times. */
  lemma FrontIsKept(c: Crypto, keyed: set<Org>, table: map<Id, Row>, limit: nat, t: Turn, at: int)
    requires Sound(c) && IsTurn(c, keyed, table, limit, t)
    ensures OlderBad(c, keyed, t.after, at) == OlderBad(c, keyed, table, at)
    ensures NotYoungerBad(c, keyed, t.after, at) == NotYoungerBad(c, keyed, table, at)
  {
    TurnMoves(c, keyed, table, limit, t);
    hide IsTurn, GoodRows, BadRows;
  }

  /** A batch of nothing but bad rows leaves the table as it is, and so is a batch of it again. */
  lemma BadBatchRepeats(c: Crypto, keyed: set<Org>, table: map<Id, Row>, limit: nat, t: Turn)
    requires Sound(c) && IsTurn(c, keyed, table, limit, t) && GoodInBatch(c, keyed, t.batch) == {}
    ensures t.after == table && IsBatch(t.after, limit, t.batch)
  {
    TurnMoves(c, keyed, table, limit, t);
    hide IsBatch, IsAfter, OnlyKeysFail, GoodRows, BadRows, Sound;
    assert forall id :: id in table ==> t.after[id] == table[id];
    assert t.after == table;
  }

  /** Where every good row has a batch's worth of older bad rows, nothing moves in any number of batches. */
  lemma {:induction false} StuckForEver(c: Crypto, keyed: set<Org>, table: map<Id, Row>, limit: nat, turns: seq<Turn>)
    requires Sound(c) && Batches(c, keyed, table, limit, turns)
    requires forall g :: g in GoodRows(c, keyed, table) ==> |OlderBad(c, keyed, table, table[g].createdAt)| >= limit
    ensures Final(table, turns) == table
    decreases |turns|
  {
    if turns != [] {
      hide OlderBad, GoodRows;
      WhenABatchMoves(c, keyed, table, limit, turns[0].batch);
      BadBatchRepeats(c, keyed, table, limit, turns[0]);
      StuckForEver(c, keyed, table, limit, turns[1..]);
    }
  }

  /** With distinct times, one batch that moves nothing means that no batch ever will. */
  lemma OnceStuckForEverStuck(c: Crypto, keyed: set<Org>, table: map<Id, Row>, limit: nat, t: Turn, turns: seq<Turn>)
    requires Sound(c) && DistinctTimes(table) && IsTurn(c, keyed, table, limit, t) && GoodInBatch(c, keyed, t.batch) == {}
    requires Batches(c, keyed, t.after, limit, turns)
    ensures Final(t.after, turns) == table
  {
    WhenABatchMoves(c, keyed, table, limit, t.batch);
    BadBatchRepeats(c, keyed, table, limit, t);
    StuckForEver(c, keyed, table, limit, turns);
  }

  /** A good row behind a batch's worth of older bad rows is never reached, by any number of batches. */
  lemma {:induction false} NeverReached(c: Crypto, keyed: set<Org>, table: map<Id, Row>, limit: nat, turns: seq<Turn>, g: Id)
    requires Sound(c) && Batches(c, keyed, table, limit, turns) && g in GoodRows(c, keyed, table)
    requires |OlderBad(c, keyed, table, table[g].createdAt)| >= limit
    ensures g in GoodRows(c, keyed, Final(table, turns)) && Final(table, turns)[g] == table[g]
    decreases |turns|
  {
    if turns != [] {
      var t := turns[0];
      NotSelected(c, keyed, table, limit, t, g);
      TurnMoves(c, keyed, table, limit, t);
      FrontIsKept(c, keyed, table, limit, t, table[g].createdAt);
      hide IsTurn, OlderBad, Good;
      NeverReached(c, keyed, t.after, limit, turns[1..], g);
    }
  }

  /** The envelope that a scrub under the right to be forgotten writes into all three columns. */
  function Zeroed(): Bytes { seq(32, _ => 0) }

  /** Scrubbed rows stay in the backlog for ever, whatever the keys. */
  lemma ScrubbedRowsAreBad(c: Crypto, keyed: set<Org>, r: Row)
    requires Sound(c) && r.name == Zeroed()
    ensures Bad(c, keyed, r)
  {
    assert !HasVersion(r.name, 1) && !HasVersion(r.name, 2);
  }

  /** An instance: with one scrubbed row and a limit of one, a younger row is never re-encrypted. */
  lemma AScrubbedRowBlocks(
    c: Crypto, keyed: set<Org>, table: map<Id, Row>, turns: seq<Turn>, scrubbed: Id, g: Id)
    requires Sound(c) && Batches(c, keyed, table, 1, turns) && table.Keys == {scrubbed, g}
    requires table[scrubbed].name == Zeroed() && table[scrubbed].createdAt < table[g].createdAt
    requires Good(c, keyed, table[g])
    ensures g in Final(table, turns) && Final(table, turns)[g] == table[g]
  {
    ScrubbedRowsAreBad(c, keyed, table[scrubbed]);
    hide Good, Bad;
    assert g in GoodRows(c, keyed, table);
    assert scrubbed in OlderBad(c, keyed, table, table[g].createdAt);
    NeverReached(c, keyed, table, 1, turns, g);
  }

  lemma NotSelected(c: Crypto, keyed: set<Org>, table: map<Id, Row>, limit: nat, t: Turn, g: Id)
    requires IsTurn(c, keyed, table, limit, t) && g in GoodRows(c, keyed, table)
    requires |OlderBad(c, keyed, table, table[g].createdAt)| >= limit
    ensures g !in GoodInBatch(c, keyed, t.batch)
  {
    hide OlderBad, Good;
    if InBatch(t.batch, g) { SelectedIsNearTheFront(c, keyed, table, limit, t.batch, g); }
  }

  /** The good rows not younger than an instant. */
  function NotYoungerGood(c: Crypto, keyed: set<Org>, table: map<Id, Row>, t: int): set<Id> {
    set id | id in GoodRows(c, keyed, table) && table[id].createdAt <= t
  }

  /** A batch that passes over a good row with room before it takes a good row not younger than it. */
  lemma SomeGoodRowGoesFirst(c: Crypto, keyed: set<Org>, table: map<Id, Row>, limit: nat, t: Turn, g: Id) returns (x: Id)
    requires Sound(c) && IsTurn(c, keyed, table, limit, t) && g in GoodRows(c, keyed, table)
    requires |NotYoungerBad(c, keyed, table, table[g].createdAt)| < limit
    ensures x in GoodInBatch(c, keyed, t.batch) && x in NotYoungerGood(c, keyed, table, table[g].createdAt)
  {
    GoodOfBatchAreGood(c, keyed, table, limit, t.batch);
    GoodIsCandidate(c, keyed, table, g);
    if GoodInBatch(c, keyed, t.batch) == {} {
      PassedOverIsFarBack(c, keyed, table, limit, t.batch, g);
    }
    x :| x in GoodInBatch(c, keyed, t.batch);
    hide Good, Bad, NotYoungerBad;
    if InBatch(t.batch, g) {
      x := g;
      GoodSelectedIsInBatch(c, keyed, table, limit, t.batch, g);
    } else {
      OthersAreYounger(table, limit, t.batch, g, x);
    }
  }

  lemma GoodSelectedIsInBatch(c: Crypto, keyed: set<Org>, table: map<Id, Row>, limit: nat, batch: seq<Item>, g: Id)
    requires IsBatch(table, limit, batch) && g in GoodRows(c, keyed, table) && InBatch(batch, g)
    ensures g in GoodInBatch(c, keyed, batch)
  {
    var i :| 0 <= i < |batch| && batch[i].id == g;
    assert table[batch[i].id] == batch[i].row;
  }

  /** What a good row's queue looks like after a batch. */
  lemma QueueShrinks(c: Crypto, keyed: set<Org>, table: map<Id, Row>, limit: nat, t: Turn, g: Id)
    requires Sound(c) && IsTurn(c, keyed, table, limit, t) && g in GoodRows(c, keyed, table)
    requires |NotYoungerBad(c, keyed, table, table[g].createdAt)| < limit
    ensures |NotYoungerGood(c, keyed, t.after, table[g].createdAt)| < |NotYoungerGood(c, keyed, table, table[g].createdAt)|
  {
    var x := SomeGoodRowGoesFirst(c, keyed, table, limit, t, g);
    TurnMoves(c, keyed, table, limit, t);
    var at := table[g].createdAt;
    hide IsTurn, NotYoungerBad, GoodRows, GoodInBatch;
    OldestFirst.SubsetCount(NotYoungerGood(c, keyed, t.after, at), NotYoungerGood(c, keyed, table, at) - {x});
  }

  lemma {:induction false} GoodNeverReturns(c: Crypto, keyed: set<Org>, table: map<Id, Row>, limit: nat, turns: seq<Turn>)
    requires Sound(c) && Batches(c, keyed, table, limit, turns)
    ensures GoodRows(c, keyed, Final(table, turns)) <= GoodRows(c, keyed, table)
    ensures BadRows(c, keyed, Final(table, turns)) == BadRows(c, keyed, table)
    decreases |turns|
  {
    if turns != [] {
      TurnMoves(c, keyed, table, limit, turns[0]);
      hide GoodRows, BadRows, IsTurn;
      GoodNeverReturns(c, keyed, turns[0].after, limit, turns[1..]);
    }
  }

  /** A good row with fewer than a batch of bad rows not younger than it is reached, within as many batches as good rows are not younger. */
  lemma {:induction false} ReachedInTime(c: Crypto, keyed: set<Org>, table: map<Id, Row>, limit: nat, turns: seq<Turn>, g: Id)
    requires Sound(c) && Batches(c, keyed, table, limit, turns) && g in GoodRows(c, keyed, table)
    requires |NotYoungerBad(c, keyed, table, table[g].createdAt)| < limit
    requires |turns| >= |NotYoungerGood(c, keyed, table, table[g].createdAt)|
    ensures g !in GoodRows(c, keyed, Final(table, turns))
    decreases |turns|
  {
    assert g in NotYoungerGood(c, keyed, table, table[g].createdAt);
    var t := turns[0];
    QueueShrinks(c, keyed, table, limit, t, g);
    FrontIsKept(c, keyed, table, limit, t, table[g].createdAt);
    TurnMoves(c, keyed, table, limit, t);
    hide GoodRows, BadRows, IsTurn, NotYoungerBad, NotYoungerGood;
    if g in GoodRows(c, keyed, t.after) {
      ReachedInTime(c, keyed, t.after, limit, turns[1..], g);
    } else {
      GoodNeverReturns(c, keyed, t.after, limit, turns[1..]);
    }
  }

  /**
   A row's fate is decided by the table the migration starts from: with
   distinct times and enough batches, a good row is re-encrypted if and only if
   fewer than a batch of bad rows are older than it; otherwise it never is.
   */
  lemma WhenARowIsReached(c: Crypto, keyed: set<Org>, table: map<Id, Row>, limit: nat, turns: seq<Turn>, g: Id)
    requires Sound(c) && Batches(c, keyed, table, limit, turns) && g in GoodRows(c, keyed, table)
    requires DistinctTimes(table) && |turns| >= |NotYoungerGood(c, keyed, table, table[g].createdAt)|
    ensures g !in GoodRows(c, keyed, Final(table, turns)) <==> |OlderBad(c, keyed, table, table[g].createdAt)| < limit
  {
    TimesDecide(c, keyed, table, g);
    hide GoodRows, OlderBad, NotYoungerBad, NotYoungerGood;
    if |OlderBad(c, keyed, table, table[g].createdAt)| < limit {
      ReachedInTime(c, keyed, table, limit, turns, g);
    } else {
      NeverReached(c, keyed, table, limit, turns, g);
    }
  }

  predicate IsYoungest(c: Crypto, keyed: set<Org>, table: map<Id, Row>, y: Id) {
    y in GoodRows(c, keyed, table)
    && forall g :: g in GoodRows(c, keyed, table) ==> table[g].createdAt <= table[y].createdAt
  }

  /** The whole backlog drains if and only if fewer than a batch of bad rows are older than its youngest good row. */
  lemma WhenTheBacklogDrains(c: Crypto, keyed: set<Org>, table: map<Id, Row>, limit: nat, turns: seq<Turn>, y: Id)
    requires Sound(c) && Batches(c, keyed, table, limit, turns) && DistinctTimes(table) && IsYoungest(c, keyed, table, y)
    requires |turns| >= |GoodRows(c, keyed, table)|
    ensures GoodRows(c, keyed, Final(table, turns)) == {} <==> |OlderBad(c, keyed, table, table[y].createdAt)| < limit
  {
    GoodNeverReturns(c, keyed, table, limit, turns);
    forall g | g in GoodRows(c, keyed, table)
      ensures g !in GoodRows(c, keyed, Final(table, turns)) <==> |OlderBad(c, keyed, table, table[g].createdAt)| < limit
      ensures |OlderBad(c, keyed, table, table[g].createdAt)| <= |OlderBad(c, keyed, table, table[y].createdAt)|
    {
      OldestFirst.SubsetCount(NotYoungerGood(c, keyed, table, table[g].createdAt), GoodRows(c, keyed, table));
      WhenARowIsReached(c, keyed, table, limit, turns, g);
      OldestFirst.SubsetCount(OlderBad(c, keyed, table, table[g].createdAt), OlderBad(c, keyed, table, table[y].createdAt));
    }
    hide GoodRows, OlderBad;
  }

  /** In particular, and whatever the times, with fewer bad rows than a batch holds every batch takes a good row until none are left. */
  lemma {:induction false} BacklogDrains(c: Crypto, keyed: set<Org>, table: map<Id, Row>, limit: nat, turns: seq<Turn>)
    requires Sound(c) && Batches(c, keyed, table, limit, turns) && |BadRows(c, keyed, table)| < limit
    ensures var last := GoodRows(c, keyed, Final(table, turns));
      last == {} || |last| + |turns| <= |GoodRows(c, keyed, table)|
    decreases |turns|
  {
    if turns != [] {
      var t := turns[0];
      TurnMoves(c, keyed, table, limit, t);
      OneBatchDrains(c, keyed, table, limit, t);
      hide GoodRows, BadRows, IsTurn;
      GoodNeverReturns(c, keyed, t.after, limit, turns[1..]);
      BacklogDrains(c, keyed, t.after, limit, turns[1..]);
    }
  }

  lemma OneBatchDrains(c: Crypto, keyed: set<Org>, table: map<Id, Row>, limit: nat, t: Turn)
    requires Sound(c) && IsTurn(c, keyed, table, limit, t) && |BadRows(c, keyed, table)| < limit
    requires GoodRows(c, keyed, t.after) == GoodRows(c, keyed, table) - GoodInBatch(c, keyed, t.batch)
    ensures if GoodRows(c, keyed, table) == {} then GoodRows(c, keyed, t.after) == {}
      else |GoodRows(c, keyed, t.after)| < |GoodRows(c, keyed, table)|
  {
    if g :| g in GoodRows(c, keyed, table) {
      OldestFirst.SubsetCount(NotYoungerBad(c, keyed, table, table[g].createdAt), BadRows(c, keyed, table));
      var x := SomeGoodRowGoesFirst(c, keyed, table, limit, t, g);
      hide GoodRows, BadRows, IsTurn;
      GoodOfBatchAreGoodTurn(c, keyed, table, limit, t);
      OldestFirst.SubsetCount(GoodRows(c, keyed, t.after), GoodRows(c, keyed, table) - {x});
    }
  }

  lemma GoodOfBatchAreGoodTurn(c: Crypto, keyed: set<Org>, table: map<Id, Row>, limit: nat, t: Turn)
    requires IsTurn(c, keyed, table, limit, t)
    ensures GoodInBatch(c, keyed, t.batch) <= GoodRows(c, keyed, table)
  {
    GoodOfBatchAreGood(c, keyed, table, limit, t.batch);
  }
}
