/**
 Moving PII envelopes from the global key (version 1) to the tenant's key
 (version 2), a batch at a time with several rows in flight
 (apps/api/src/workers/pii-reencryption.worker.ts).  The ciphers are
 parameters: all that is assumed of them is that each envelope carries its
 version byte and that decryption undoes encryption.
 */
module PiiReencryption {
  import opened Wrappers
  import WorkPool

  newtype Byte = x: int | 0 <= x < 256

  type Bytes = seq<Byte>
  type Org = nat
  type Id = nat
  type Nonce = nat

  datatype Row = Row(org: Org, createdAt: int, name: Bytes, email: Bytes, phone: Bytes)

  /**
   decryptPII, the version 2 decryption, encryptForOrg with its random
   initialisation vector made explicit, and the owner of the key that an
   envelope names.
   */
  datatype Crypto = Crypto(
    decryptV1: Bytes -> Option<string>,
    decryptV2: Bytes -> Option<string>,
    encryptV2: (Org, string, Nonce) -> Bytes,
    keyOwner: Bytes -> Option<Org>)

  predicate HasVersion(b: Bytes, v: Byte) { |b| > 0 && b[0] == v }

  ghost predicate Sound(c: Crypto) {
    && (forall b: Bytes :: c.decryptV1(b).Some? ==> HasVersion(b, 1))
    && (forall org: Org, p: string, n: Nonce ::
         && HasVersion(c.encryptV2(org, p, n), 2)
         && c.decryptV2(c.encryptV2(org, p, n)) == Some(p)
         && c.keyOwner(c.encryptV2(org, p, n)) == Some(org))
  }

  /** How the rest of the system reads an envelope: by its version byte. */
  function Decrypt(c: Crypto, b: Bytes): Option<string> {
    if b == [] then None else if HasVersion(b, 2) then c.decryptV2(b) else c.decryptV1(b)
  }

  datatype Pii = Pii(name: Option<string>, email: Option<string>, phone: Option<string>)

  /** What a row means to its readers. */
  function Meaning(c: Crypto, r: Row): Pii {
    Pii(Decrypt(c, r.name), Decrypt(c, r.email), Decrypt(c, r.phone))
  }

  /** The batch query's condition; an empty envelope passes it too. */
  predicate Candidate(r: Row) { !HasVersion(r.name, 2) }

  predicate Decryptable(c: Crypto, r: Row) {
    c.decryptV1(r.name).Some? && c.decryptV1(r.email).Some? && c.decryptV1(r.phone).Some?
  }

  datatype Nonces = Nonces(name: Nonce, email: Nonce, phone: Nonce)

  /** The three columns re-encrypted under the tenant's key, in one update of the row as it now stands. */
  function Upgraded(c: Crypto, snapshot: Row, current: Row, n: Nonces): Row
    requires Decryptable(c, snapshot)
  {
    current.(name := c.encryptV2(snapshot.org, c.decryptV1(snapshot.name).value, n.name),
             email := c.encryptV2(snapshot.org, c.decryptV1(snapshot.email).value, n.email),
             phone := c.encryptV2(snapshot.org, c.decryptV1(snapshot.phone).value, n.phone))
  }

  /** Readers look at the first byte. */
  lemma ReadersDispatch(c: Crypto, b: Bytes)
    ensures Decrypt(c, b) == if b == [] then None else if b[0] == 2 then c.decryptV2(b) else c.decryptV1(b)
  {
  }

  /** Readers see what was encrypted, under either version, and nothing in an empty envelope. */
  lemma WhatReadersSee(c: Crypto, b: Bytes, org: Org, p: string, n: Nonce)
    requires Sound(c)
    ensures Decrypt(c, c.encryptV2(org, p, n)) == Some(p)
    ensures c.decryptV1(b).Some? ==> Decrypt(c, b) == c.decryptV1(b)
    ensures HasVersion(b, 2) ==> Decrypt(c, b) == c.decryptV2(b)
    ensures b == [] ==> Decrypt(c, b) == None
  {
    var e := c.encryptV2(org, p, n);
    assert HasVersion(e, 2);
  }

  /** Re-encryption keeps the meaning, whatever the row has become since the snapshot was taken. */
  lemma UpgradeKeepsMeaning(c: Crypto, snapshot: Row, current: Row, n: Nonces)
    requires Sound(c) && Decryptable(c, snapshot)
    ensures Meaning(c, Upgraded(c, snapshot, current, n)) == Meaning(c, snapshot)
    ensures Meaning(c, snapshot) == Pii(c.decryptV1(snapshot.name), c.decryptV1(snapshot.email), c.decryptV1(snapshot.phone))
    ensures !Candidate(Upgraded(c, snapshot, current, n))
  {
    assert HasVersion(snapshot.name, 1) && HasVersion(snapshot.email, 1) && HasVersion(snapshot.phone, 1);
  }

  // ---------------------------------------------------------------- every interleaving

  type Proc = nat

  datatype Item = Item(id: Id, row: Row)

  /** One process at work on the batch it selected. */
  datatype Job = Job(batch: seq<Item>, pool: WorkPool.Pool, upgraded: nat, skipped: nat)

  datatype World = World(table: map<Id, Row>, jobs: map<Proc, Job>)

  /** `ok` is false when the tenant has no key, the key service fails or the update does. */
  datatype Step =
    | Select(p: Proc, batch: seq<Item>)
    | Turn(p: Proc, s: WorkPool.Step, n: Nonces, ok: bool)
    | Stop(p: Proc)

  function Shape(job: Job, parallel: nat): WorkPool.Shape {
    WorkPool.Shape(|job.batch|, if |job.batch| < parallel then |job.batch| else parallel)
  }

  predicate Enabled(w: World, s: Step, parallel: nat) {
    match s
    case Select(p, batch) =>
      p !in w.jobs
      && forall i :: 0 <= i < |batch| ==>
           batch[i].id in w.table && w.table[batch[i].id] == batch[i].row && Candidate(batch[i].row)
    case Turn(p, t, _, _) =>
      p in w.jobs && WorkPool.Enabled(w.jobs[p].pool, t, Shape(w.jobs[p], parallel))
      && (t.Finish? ==> w.jobs[p].pool.busy[t.w] < |w.jobs[p].batch|)
    case Stop(p) => p in w.jobs
  }

  predicate Writes(c: Crypto, w: World, item: Item, ok: bool) {
    ok && Decryptable(c, item.row) && item.id in w.table
  }

  function Apply(c: Crypto, w: World, s: Step, parallel: nat): World
    requires Enabled(w, s, parallel)
  {
    match s
    case Select(p, batch) => w.(jobs := w.jobs[p := Job(batch, WorkPool.Start(), 0, 0)])
    case Stop(p) => w.(jobs := w.jobs - {p})
    case Turn(p, t, n, ok) =>
      var job := w.jobs[p];
      var pool := WorkPool.Apply(job.pool, t, Shape(job, parallel));
      if t.Shift? then w.(jobs := w.jobs[p := job.(pool := pool)])
      else
        var item := job.batch[job.pool.busy[t.w]];
        if Writes(c, w, item, ok) then
          World(w.table[item.id := Upgraded(c, item.row, w.table[item.id], n)],
                w.jobs[p := job.(pool := pool, upgraded := job.upgraded + 1)])
        else
          w.(jobs := w.jobs[p := job.(pool := pool, skipped := job.skipped + 1)])
  }

  /** A process can start on whatever rows the query gave it, move whenever its pool can, and stop at any time. */
  lemma WhatAProcessCanDo(w: World, p: Proc, batch: seq<Item>, t: WorkPool.Step, n: Nonces, ok: bool, parallel: nat)
    ensures p !in w.jobs
      && (forall i :: 0 <= i < |batch| ==>
           batch[i].id in w.table && batch[i].row == w.table[batch[i].id]
           && (batch[i].row.name == [] || batch[i].row.name[0] != 2))
      ==> Enabled(w, Select(p, batch), parallel)
    ensures p in w.jobs ==> Enabled(w, Stop(p), parallel)
    ensures p in w.jobs ==>
      var job := w.jobs[p];
      WorkPool.Enabled(job.pool, t, WorkPool.Shape(|job.batch|, if |job.batch| < parallel then |job.batch| else parallel))
      && (t.Finish? ==> t.w in job.pool.busy && job.pool.busy[t.w] < |job.batch|)
      ==> Enabled(w, Turn(p, t, n, ok), parallel)
  {
  }

  /**
   A process's turn is a step of its pool, and of no other's.  Shifting touches
   no row; finishing an item counts it once, as upgraded exactly if its row is
   written, and touches no other row.
   */
  lemma TurnsArePoolSteps(c: Crypto, w: World, s: Step, parallel: nat, other: Proc, id: Id)
    requires Enabled(w, s, parallel)
    ensures var w' := Apply(c, w, s, parallel);
      && (other != s.p ==> (other in w'.jobs <==> other in w.jobs) && (other in w.jobs ==> w'.jobs[other] == w.jobs[other]))
      && (s.Select? ==> s.p in w'.jobs && w'.jobs[s.p] == Job(s.batch, WorkPool.Start(), 0, 0) && w'.table == w.table)
      && (s.Stop? ==> s.p !in w'.jobs && w'.table == w.table)
      && (s.Turn? ==>
           var job := w.jobs[s.p];
           && s.p in w'.jobs && w'.jobs[s.p].batch == job.batch
           && w'.jobs[s.p].pool == WorkPool.Apply(job.pool, s.s, Shape(job, parallel))
           && (s.s.Shift? ==> w'.table == w.table && w'.jobs[s.p].upgraded == job.upgraded && w'.jobs[s.p].skipped == job.skipped)
           && (s.s.Finish? ==>
                var item := job.batch[job.pool.busy[s.s.w]];
                var writes :=
                  && s.ok && item.id in w.table
                  && c.decryptV1(item.row.name).Some? && c.decryptV1(item.row.email).Some? && c.decryptV1(item.row.phone).Some?;
                && w'.jobs[s.p].upgraded == job.upgraded + (if writes then 1 else 0)
                && w'.jobs[s.p].skipped == job.skipped + (if writes then 0 else 1)
                && (id in w.table && (id != item.id || !writes) ==> id in w'.table && w'.table[id] == w.table[id])))
  {
  }

  type Truth = map<Id, Pii>

  /** Every stored row, and every copy a process still holds, means what it meant at the start. */
  predicate Inv(c: Crypto, w: World, truth: Truth) {
    && w.table.Keys == truth.Keys
    && (forall id :: id in w.table ==> Meaning(c, w.table[id]) == truth[id])
    && (forall p, i :: p in w.jobs && 0 <= i < |w.jobs[p].batch| ==>
         w.jobs[p].batch[i].id in truth && Meaning(c, w.jobs[p].batch[i].row) == truth[w.jobs[p].batch[i].id])
    && (forall p :: p in w.jobs ==> w.jobs[p].upgraded + w.jobs[p].skipped == |w.jobs[p].pool.done|)
  }

  lemma StepKeepsMeaning(c: Crypto, w: World, s: Step, parallel: nat, truth: Truth)
    requires Sound(c) && Inv(c, w, truth) && Enabled(w, s, parallel)
    ensures Inv(c, Apply(c, w, s, parallel), truth)
  {
    hide Meaning, Upgraded, Sound;
    if s.Turn? && s.s.Finish? {
      var job := w.jobs[s.p];
      var item := job.batch[job.pool.busy[s.s.w]];
      if Writes(c, w, item, s.ok) {
        UpgradeKeepsMeaning(c, item.row, w.table[item.id], s.n);
      }
    }
  }

  ghost predicate Legal(c: Crypto, w: World, run: seq<Step>, parallel: nat)
    decreases |run|
  {
    run == [] || (Enabled(w, run[0], parallel) && Legal(c, Apply(c, w, run[0], parallel), run[1..], parallel))
  }

  ghost function Run(c: Crypto, w: World, run: seq<Step>, parallel: nat): World
    requires Legal(c, w, run, parallel)
    decreases |run|
  {
    if run == [] then w else Run(c, Apply(c, w, run[0], parallel), run[1..], parallel)
  }

  lemma {:induction false} RunKeepsMeaning(c: Crypto, w: World, run: seq<Step>, parallel: nat, truth: Truth)
    requires Sound(c) && Inv(c, w, truth) && Legal(c, w, run, parallel)
    ensures Inv(c, Run(c, w, run, parallel), truth)
    decreases |run|
  {
    if run != [] {
      StepKeepsMeaning(c, w, run[0], parallel, truth);
      RunKeepsMeaning(c, Apply(c, w, run[0], parallel), run[1..], parallel, truth);
    }
  }

  /**
   Meaning is preserved: with any number of processes, any interleaving of
   their workers, failures and crashes anywhere, every row still decrypts,
   under version dispatch, to what it decrypted to at the start.
   */
  lemma EveryRowKeepsItsMeaning(c: Crypto, table: map<Id, Row>, run: seq<Step>, parallel: nat, id: Id)
    requires Sound(c) && Legal(c, World(table, map[]), run, parallel) && id in table
    ensures var after := Run(c, World(table, map[]), run, parallel).table;
      after.Keys == table.Keys && Meaning(c, after[id]) == Meaning(c, table[id])
  {
    var truth := map k | k in table :: Meaning(c, table[k]);
    RunKeepsMeaning(c, World(table, map[]), run, parallel, truth);
  }

  // ---------------------------------------------------------------- whose key

  predicate UnderKeyOf(c: Crypto, b: Bytes, org: Org) { HasVersion(b, 2) ==> c.keyOwner(b) == Some(org) }

  /** What a row holds under a tenant's key is under its own tenant's. */
  predicate OwnKeys(c: Crypto, r: Row) {
    UnderKeyOf(c, r.name, r.org) && UnderKeyOf(c, r.email, r.org) && UnderKeyOf(c, r.phone, r.org)
  }

  /** And processes know whose row they hold. */
  predicate KeysOk(c: Crypto, w: World) {
    && (forall id :: id in w.table ==> OwnKeys(c, w.table[id]))
    && (forall p, i :: p in w.jobs && 0 <= i < |w.jobs[p].batch| ==>
         var item := w.jobs[p].batch[i];
         item.id in w.table && item.row.org == w.table[item.id].org)
  }

  lemma UpgradedIsOwn(c: Crypto, snapshot: Row, current: Row, n: Nonces)
    requires Sound(c) && Decryptable(c, snapshot) && snapshot.org == current.org
    ensures OwnKeys(c, Upgraded(c, snapshot, current, n))
    ensures Upgraded(c, snapshot, current, n).org == current.org
    ensures Upgraded(c, snapshot, current, n).createdAt == current.createdAt
  {
  }

  lemma StepKeepsKeys(c: Crypto, w: World, s: Step, parallel: nat)
    requires Sound(c) && KeysOk(c, w) && Enabled(w, s, parallel)
    ensures KeysOk(c, Apply(c, w, s, parallel))
    ensures Apply(c, w, s, parallel).table.Keys == w.table.Keys
    ensures forall id :: id in w.table ==> Apply(c, w, s, parallel).table[id].org == w.table[id].org
  {
    hide OwnKeys, Upgraded, Sound;
    if s.Turn? && s.s.Finish? {
      var job := w.jobs[s.p];
      var item := job.batch[job.pool.busy[s.s.w]];
      if Writes(c, w, item, s.ok) {
        UpgradedIsOwn(c, item.row, w.table[item.id], s.n);
      }
    }
  }

  /**
   No tenant's data ends up under another's key, so that destroying a tenant's
   key destroys no one else's: with any number of processes, interleavings,
   failures and crashes, where it was so at the start it stays so.
   */
  lemma {:induction false} EveryRowStaysUnderItsTenantsKey(c: Crypto, w: World, run: seq<Step>, parallel: nat, id: Id)
    requires Sound(c) && KeysOk(c, w) && Legal(c, w, run, parallel) && id in w.table
    ensures var after := Run(c, w, run, parallel).table;
      id in after && after[id].org == w.table[id].org && OwnKeys(c, after[id])
    decreases |run|
  {
    hide OwnKeys, Apply, Enabled, Sound;
    if run != [] {
      StepKeepsKeys(c, w, run[0], parallel);
      EveryRowStaysUnderItsTenantsKey(c, Apply(c, w, run[0], parallel), run[1..], parallel, id);
    }
  }

  // ---------------------------------------------------------------- one batch

  /** How each item of the batch fares, and the randomness it draws. */
  datatype Env = Env(crypto: Crypto, ok: nat -> bool, nonces: nat -> Nonces)

  predicate Distinct(batch: seq<Item>) {
    forall i, j :: 0 <= i < j < |batch| ==> batch[i].id != batch[j].id
  }

  predicate Succeeds(e: Env, batch: seq<Item>, i: nat)
    requires i < |batch|
  {
    e.ok(i) && Decryptable(e.crypto, batch[i].row)
  }

  /** How many of the first n items succeed. */
  function Successes(e: Env, batch: seq<Item>, n: nat): nat
    requires n <= |batch|
  {
    if n == 0 then 0 else Successes(e, batch, n - 1) + if Succeeds(e, batch, n - 1) then 1 else 0
  }

  /** The table once exactly the items in `done` have been handled. */
  predicate IsAfter(e: Env, table: map<Id, Row>, batch: seq<Item>, done: set<nat>, after: map<Id, Row>) {
    && after.Keys == table.Keys
    && (forall i :: 0 <= i < |batch| ==> batch[i].id in table)
    && (forall i :: 0 <= i < |batch| ==>
         after[batch[i].id] ==
           if i in done && Succeeds(e, batch, i) then
             Upgraded(e.crypto, batch[i].row, table[batch[i].id], e.nonces(i))
           else table[batch[i].id])
    && (forall id :: id in table && (forall i :: 0 <= i < |batch| ==> batch[i].id != id) ==> after[id] == table[id])
  }

  lemma HandlingOne(e: Env, table: map<Id, Row>, batch: seq<Item>, done: set<nat>, mid: map<Id, Row>, i: nat)
    requires Distinct(batch) && i < |batch| && i !in done && IsAfter(e, table, batch, done, mid)
    ensures var after := if Succeeds(e, batch, i)
        then mid[batch[i].id := Upgraded(e.crypto, batch[i].row, mid[batch[i].id], e.nonces(i))] else mid;
      IsAfter(e, table, batch, done + {i}, after)
  {
    hide Upgraded, Decryptable;
  }

  lemma BatchIsStored(e: Env, table: map<Id, Row>, batch: seq<Item>, done: set<nat>, after: map<Id, Row>)
    requires IsAfter(e, table, batch, done, after)
    ensures forall i :: 0 <= i < |batch| ==> batch[i].id in after
  {
  }

  lemma NothingHandled(e: Env, table: map<Id, Row>, batch: seq<Item>)
    requires forall i :: 0 <= i < |batch| ==> batch[i].id in table
    ensures IsAfter(e, table, batch, {}, table)
  {
  }

  function Elements(s: seq<nat>): set<nat> { set i | i in s }

  function Upto(n: nat): (s: set<nat>)
    ensures forall i: nat :: i in s <==> i < n
  {
    if n == 0 then {} else Upto(n - 1) + {n - 1}
  }

  /** The whole batch, one row after the other: what the loop does when nothing runs beside it. */
  class PiiTable {
    var rows: map<Id, Row>

    constructor (rows: map<Id, Row>)
      ensures this.rows == rows
    {
      this.rows := rows;
    }

    method ProcessBatch(batch: seq<Item>, e: Env) returns (count: nat, upgraded: nat, skipped: nat)
      requires Distinct(batch) && forall i :: 0 <= i < |batch| ==> batch[i].id in rows
      modifies this
      ensures count == |batch| == upgraded + skipped && upgraded == Successes(e, batch, |batch|)
      ensures IsAfter(e, old(rows), batch, Upto(|batch|), rows)
    {
      hide IsAfter, Upgraded, Decryptable;
      ghost var before := rows;
      NothingHandled(e, before, batch);
      upgraded, skipped := 0, 0;
      var queue := batch;
      ghost var next := 0;
      while |queue| > 0
        invariant next <= |batch| && queue == batch[next..]
        invariant upgraded + skipped == next && upgraded == Successes(e, batch, next)
        invariant IsAfter(e, before, batch, Upto(next), rows)
      {
        var item := queue[0];
        queue := queue[1..];
        BatchIsStored(e, before, batch, Upto(next), rows);
        HandlingOne(e, before, batch, Upto(next), rows, next);
        assert Upto(next + 1) == Upto(next) + {next};
        assert Succeeds(e, batch, next) <==> e.ok(next) && Decryptable(e.crypto, item.row);
        if e.ok(upgraded + skipped) && Decryptable(e.crypto, item.row) {
          rows := rows[item.id := Upgraded(e.crypto, item.row, rows[item.id], e.nonces(upgraded + skipped))];
          upgraded := upgraded + 1;
        } else {
          skipped := skipped + 1;
        }
        next := next + 1;
      }
      count := |batch|;
    }
  }

  /** The environment's choices for one turn of process p's pool. */
  function TurnOf(e: Env, w: World, p: Proc, t: WorkPool.Step): Step
    requires p in w.jobs
  {
    var pool := w.jobs[p].pool;
    var i := if t.Finish? && t.w in pool.busy then pool.busy[t.w] else 0;
    Turn(p, t, e.nonces(i), e.ok(i))
  }

  /** A run of one process's pool, nothing else happening to the table. */
  ghost predicate LegalJob(e: Env, w: World, p: Proc, run: seq<WorkPool.Step>, parallel: nat)
    decreases |run|
  {
    p in w.jobs &&
    (run == [] ||
     (Enabled(w, TurnOf(e, w, p, run[0]), parallel)
      && LegalJob(e, Apply(e.crypto, w, TurnOf(e, w, p, run[0]), parallel), p, run[1..], parallel)))
  }

  ghost function RunJob(e: Env, w: World, p: Proc, run: seq<WorkPool.Step>, parallel: nat): (w': World)
    requires LegalJob(e, w, p, run, parallel)
    ensures p in w'.jobs && w'.jobs[p].batch == w.jobs[p].batch
    decreases |run|
  {
    if run == [] then w else RunJob(e, Apply(e.crypto, w, TurnOf(e, w, p, run[0]), parallel), p, run[1..], parallel)
  }

  /** Midway: the pool is consistent and the table has had exactly the finished items handled. */
  ghost predicate Midway(e: Env, table: map<Id, Row>, w: World, p: Proc, parallel: nat) {
    && p in w.jobs
    && Distinct(w.jobs[p].batch)
    && WorkPool.Inv(w.jobs[p].pool, Shape(w.jobs[p], parallel))
    && IsAfter(e, table, w.jobs[p].batch, Elements(w.jobs[p].pool.done), w.table)
  }

  lemma TurnHandlesOne(e: Env, table: map<Id, Row>, w: World, p: Proc, t: WorkPool.Step, parallel: nat)
    requires Midway(e, table, w, p, parallel) && Enabled(w, TurnOf(e, w, p, t), parallel)
    ensures Midway(e, table, Apply(e.crypto, w, TurnOf(e, w, p, t), parallel), p, parallel)
  {
    hide IsAfter, WorkPool.Inv, Upgraded, Decryptable;
    var job := w.jobs[p];
    var shape := Shape(job, parallel);
    WorkPool.StepKeeps(job.pool, t, shape);
    if t.Finish? {
      var i := job.pool.busy[t.w];
      HeldIsNotDone(job.pool, t.w, shape);
      BatchIsStored(e, table, job.batch, Elements(job.pool.done), w.table);
      HandlingOne(e, table, job.batch, Elements(job.pool.done), w.table, i);
      assert Elements(job.pool.done + [i]) == Elements(job.pool.done) + {i};
    }
  }

  lemma HeldIsNotDone(pool: WorkPool.Pool, v: WorkPool.Worker, shape: WorkPool.Shape)
    requires WorkPool.Inv(pool, shape) && v in pool.busy
    ensures pool.busy[v] !in pool.done
  {
  }

  lemma {:induction false} RunJobHandles(
    e: Env, table: map<Id, Row>, w: World, p: Proc, run: seq<WorkPool.Step>, parallel: nat)
    requires Midway(e, table, w, p, parallel) && LegalJob(e, w, p, run, parallel)
    ensures Midway(e, table, RunJob(e, w, p, run, parallel), p, parallel)
    decreases |run|
  {
    hide Midway, Enabled, Apply;
    if run != [] {
      TurnHandlesOne(e, table, w, p, run[0], parallel);
      RunJobHandles(e, table, Apply(e.crypto, w, TurnOf(e, w, p, run[0]), parallel), p, run[1..], parallel);
    }
  }

  /** Everything shifted and nothing held means everything handled. */
  lemma DrainedIsAll(pool: WorkPool.Pool, shape: WorkPool.Shape)
    requires WorkPool.Inv(pool, shape) && WorkPool.Drained(pool, shape)
    ensures Elements(pool.done) == Upto(shape.n)
  {
    forall k: nat ensures k in Upto(shape.n) <==> k in pool.done {
      if k < shape.n {
        assert k in pool.done || WorkPool.Held(pool, k);
      }
    }
  }

  lemma AfterIsUnique(e: Env, table: map<Id, Row>, batch: seq<Item>, done: set<nat>, a: map<Id, Row>, b: map<Id, Row>)
    requires IsAfter(e, table, batch, done, a) && IsAfter(e, table, batch, done, b)
    ensures a == b
  {
    forall id | id in table ensures a[id] == b[id] {
      if exists i :: 0 <= i < |batch| && batch[i].id == id {
        var i :| 0 <= i < |batch| && batch[i].id == id;
        assert a[batch[i].id] == b[batch[i].id];
      }
    }
  }

  lemma StartIsMidway(e: Env, table: map<Id, Row>, batch: seq<Item>, p: Proc, parallel: nat)
    requires Distinct(batch) && forall i :: 0 <= i < |batch| ==> batch[i].id in table
    ensures Midway(e, table, World(table, map[p := Job(batch, WorkPool.Start(), 0, 0)]), p, parallel)
  {
    NothingHandled(e, table, batch);
    assert Elements(WorkPool.Start().done) == {};
  }

  /**
   The parallel drain refines the plain loop: however the workers interleave,
   a drained pool leaves the very table that PiiTable.ProcessBatch leaves.
   */
  lemma ParallelIsSequential(
    e: Env, table: map<Id, Row>, batch: seq<Item>, p: Proc, run: seq<WorkPool.Step>, parallel: nat, plain: map<Id, Row>)
    requires Distinct(batch) && forall i :: 0 <= i < |batch| ==> batch[i].id in table
    requires LegalJob(e, World(table, map[p := Job(batch, WorkPool.Start(), 0, 0)]), p, run, parallel)
    requires IsAfter(e, table, batch, Upto(|batch|), plain)
    ensures var w := RunJob(e, World(table, map[p := Job(batch, WorkPool.Start(), 0, 0)]), p, run, parallel);
      WorkPool.Drained(w.jobs[p].pool, Shape(w.jobs[p], parallel)) ==> w.table == plain
  {
    var start := World(table, map[p := Job(batch, WorkPool.Start(), 0, 0)]);
    StartIsMidway(e, table, batch, p, parallel);
    RunJobHandles(e, table, start, p, run, parallel);
    var w := RunJob(e, start, p, run, parallel);
    hide IsAfter, RunJob, LegalJob, WorkPool.Inv, WorkPool.Drained;
    if WorkPool.Drained(w.jobs[p].pool, Shape(w.jobs[p], parallel)) {
      DrainedIsAll(w.jobs[p].pool, Shape(w.jobs[p], parallel));
      AfterIsUnique(e, table, batch, Upto(|batch|), w.table, plain);
    }
  }
}
