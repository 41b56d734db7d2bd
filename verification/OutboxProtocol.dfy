/**
 The outbox under interleaving: any number of sweepers, each inside its own
 transaction, operators replaying quarantined rows, and the retention worker,
 one database or queue operation at a time.
 */
module OutboxProtocol {
  import opened OldestFirst
  import opened Outbox
  import opened Wrappers

  type Worker = nat

  /** An open sweep: the rows it holds locked and the writes nobody else sees yet. */
  datatype Txn = Txn(claimed: seq<Id>, outs: seq<Outcome>, writes: map<Id, Row>)

  datatype State = State(
    rows: map<Id, Row>,           // committed
    txns: map<Worker, Txn>,
    replays: map<Worker, Id>,     // operators between reading a row and writing it
    appended: set<Id>,            // every row ever committed to the outbox
    pruned: set<Id>,              // every row retention has deleted
    sent: seq<Id>)                // every dispatch a queue has accepted

  datatype Step =
    | Append(id: Id, at: int)
    | Claim(w: Worker, claimed: seq<Id>)
    | Attempt(w: Worker, out: Outcome)
    | Commit(w: Worker)
    | Abort(w: Worker)
    | ReplayRead(w: Worker, id: Id)
    | ReplayWrite(w: Worker)
    | Prune(victims: set<Id>, cutoff: int)

  datatype Config = Config(max: nat, batch: nat)

  function Init(): State { State(map[], map[], map[], {}, {}, []) }

  function Locked(s: State): set<Id> {
    set w, id | w in s.txns && id in s.txns[w].claimed :: id
  }

  ghost predicate Enabled(s: State, step: Step, c: Config) {
    match step
    case Append(id, _) => id !in s.appended
    case Claim(w, claimed) => w !in s.txns && IsClaim(s.rows, Locked(s), c.batch, claimed)
    case Attempt(w, _) =>
      w in s.txns && |s.txns[w].outs| < |s.txns[w].claimed| && s.txns[w].claimed[|s.txns[w].outs|] in s.rows
    case Commit(w) => w in s.txns && |s.txns[w].outs| == |s.txns[w].claimed|
    case Abort(w) => w in s.txns
    case ReplayRead(w, id) => w !in s.replays && id in s.rows && s.rows[id].dlqedAt.Some?
    case ReplayWrite(w) => w in s.replays && s.replays[w] !in Locked(s)
    case Prune(victims, cutoff) =>
      |victims| <= c.batch && forall id :: id in victims ==> id in s.rows && Prunable(s.rows[id], cutoff)
  }

  function Apply(s: State, step: Step, c: Config): State
    requires Enabled(s, step, c)
  {
    match step
    case Append(id, at) => s.(rows := s.rows[id := NewRow(at)], appended := s.appended + {id})
    case Claim(w, claimed) => s.(txns := s.txns[w := Txn(claimed, [], map[])])
    case Attempt(w, out) =>
      var t := s.txns[w];
      var id := t.claimed[|t.outs|];
      // The row is still as it was claimed: nobody can write it while the lock is held.
      s.(txns := s.txns[w := Txn(t.claimed, t.outs + [out], t.writes[id := AfterAttempt(s.rows[id], out, c.max)])],
         sent := if out.Delivered? then s.sent + [id] else s.sent)
    case Commit(w) => s.(rows := s.rows + s.txns[w].writes, txns := s.txns - {w})
    case Abort(w) => s.(txns := s.txns - {w})
    case ReplayRead(w, id) => s.(replays := s.replays[w := id])
    case ReplayWrite(w) =>
      var id := s.replays[w];
      s.(rows := if id in s.rows then s.rows[id := Replayed(s.rows[id])] else s.rows, replays := s.replays - {w})
    case Prune(victims, _) => s.(rows := s.rows - victims, pruned := s.pruned + victims)
  }

  // ---------------------------------------------------------------- the invariant

  /** A row is in one of three states, and its attempt count says how far it is from quarantine. */
  predicate RowOk(r: Row, max: nat) {
    && !(r.publishedAt.Some? && r.dlqedAt.Some?)
    && (Pending(r) ==> r.attempts < max)
    && (Quarantined(r) ==> r.attempts == max)
  }

  predicate RowsOk(rows: map<Id, Row>, max: nat) {
    forall id :: id in rows ==> RowOk(rows[id], max)
  }

  predicate Accounted(s: State) {
    && s.rows.Keys + s.pruned == s.appended
    && s.rows.Keys !! s.pruned
    && (forall id :: id in s.rows && Published(s.rows[id]) ==> id in s.sent)
    && (forall id :: id in s.pruned ==> id in s.sent)
  }

  /** An open sweep holds pending rows, and what it is about to write follows from them. */
  predicate TxnOk(t: Txn, rows: map<Id, Row>, sent: seq<Id>, max: nat) {
    && Distinct(t.claimed) && |t.outs| <= |t.claimed|
    && (forall id :: id in t.claimed ==> id in rows && Pending(rows[id]))
    && t.writes == Writes(rows, t.claimed, t.outs, max)
    && (forall id :: id in Deliveries(t.claimed, t.outs) ==> id in sent)
  }

  predicate TxnsOk(s: State, max: nat) {
    && (forall w :: w in s.txns ==> TxnOk(s.txns[w], s.rows, s.sent, max))
    && (forall v, w, id :: v in s.txns && w in s.txns && v != w && id in s.txns[v].claimed ==> id !in s.txns[w].claimed)
  }

  predicate Inv(s: State, c: Config) {
    && 1 <= c.max
    && RowsOk(s.rows, c.max)
    && Accounted(s)
    && TxnsOk(s, c.max)
  }

  /** An open sweep is untouched by whatever leaves its rows alone. */
  lemma TxnFrame(t: Txn, rows: map<Id, Row>, rows': map<Id, Row>, sent: seq<Id>, sent': seq<Id>, max: nat)
    requires TxnOk(t, rows, sent, max) && sent <= sent'
    requires forall id :: id in t.claimed ==> id in rows' && rows'[id] == rows[id]
    ensures TxnOk(t, rows', sent', max)
  {
    WritesSeeOnlyClaims(rows, rows', t.claimed, t.outs, max);
  }

  lemma AppendKeeps(s: State, id: Id, at: int, c: Config)
    requires Inv(s, c) && Enabled(s, Append(id, at), c)
    ensures Inv(Apply(s, Append(id, at), c), c)
  {
    var s' := Apply(s, Append(id, at), c);
    forall w | w in s.txns ensures TxnOk(s.txns[w], s'.rows, s'.sent, c.max) {
      TxnFrame(s.txns[w], s.rows, s'.rows, s.sent, s'.sent, c.max);
    }
  }

  lemma {:induction false} WritesSeeOnlyClaims(
    rows: map<Id, Row>, rows': map<Id, Row>, claimed: seq<Id>, outs: seq<Outcome>, max: nat)
    requires |outs| <= |claimed|
    requires forall id :: id in claimed ==> id in rows && id in rows' && rows[id] == rows'[id]
    ensures Writes(rows, claimed, outs, max) == Writes(rows', claimed, outs, max)
    decreases |outs|
  {
    if outs != [] {
      WritesSeeOnlyClaims(rows, rows', claimed, outs[..|outs| - 1], max);
    }
  }

  lemma ClaimKeeps(s: State, w: Worker, claimed: seq<Id>, c: Config)
    requires Inv(s, c) && Enabled(s, Claim(w, claimed), c)
    ensures Inv(Apply(s, Claim(w, claimed), c), c)
  {
    var s' := Apply(s, Claim(w, claimed), c);
    ClaimStartsOk(s, claimed, c);
    hide TxnOk, Accounted, RowsOk, IsClaim;
    forall v | v in s'.txns ensures TxnOk(s'.txns[v], s'.rows, s'.sent, c.max) {
    }
  }

  lemma ClaimStartsOk(s: State, claimed: seq<Id>, c: Config)
    requires IsClaim(s.rows, Locked(s), c.batch, claimed)
    ensures TxnOk(Txn(claimed, [], map[]), s.rows, s.sent, c.max)
    ensures forall v, id :: v in s.txns && id in s.txns[v].claimed ==> id !in claimed
  {
    forall v, id | v in s.txns && id in s.txns[v].claimed ensures id !in claimed {
      assert id in Locked(s);
    }
  }

  lemma AttemptExtends(t: Txn, rows: map<Id, Row>, sent: seq<Id>, out: Outcome, max: nat)
    requires TxnOk(t, rows, sent, max) && |t.outs| < |t.claimed|
    ensures var id := t.claimed[|t.outs|];
      id in rows &&
      TxnOk(Txn(t.claimed, t.outs + [out], t.writes[id := AfterAttempt(rows[id], out, max)]),
            rows, if out.Delivered? then sent + [id] else sent, max)
  {
    assert (t.outs + [out])[..|t.outs|] == t.outs;
  }

  lemma AttemptKeeps(s: State, w: Worker, out: Outcome, c: Config)
    requires Inv(s, c) && Enabled(s, Attempt(w, out), c)
    ensures Inv(Apply(s, Attempt(w, out), c), c)
  {
    hide AfterAttempt, Writes, Deliveries, RowOk;
    var s' := Apply(s, Attempt(w, out), c);
    AttemptExtends(s.txns[w], s.rows, s.sent, out, c.max);
    forall v | v in s'.txns ensures TxnOk(s'.txns[v], s'.rows, s'.sent, c.max) {
      if v != w {
        TxnFrame(s.txns[v], s.rows, s'.rows, s.sent, s'.sent, c.max);
      }
    }
  }

  /** Every row a sweep commits is one of its claims after one attempt. */
  lemma WriteIsAnAttempt(t: Txn, rows: map<Id, Row>, sent: seq<Id>, max: nat, id: Id) returns (i: nat)
    requires TxnOk(t, rows, sent, max) && id in t.writes
    ensures i < |t.outs| && t.claimed[i] == id && id in t.claimed && id in rows && Pending(rows[id])
    ensures t.writes[id] == AfterAttempt(rows[id], t.outs[i], max)
    ensures t.outs[i].Delivered? ==> id in sent
  {
    i := WrittenIsClaimed(rows, t.claimed, t.outs, max, id);
    WritesAt(rows, t.claimed, t.outs, max, i);
    if t.outs[i].Delivered? {
      DeliveriesHold(t.claimed, t.outs, i);
    }
  }

  /** What a commit does to the rows: only claims change, and what they change into is in order. */
  lemma CommittedRows(t: Txn, rows: map<Id, Row>, sent: seq<Id>, max: nat)
    requires TxnOk(t, rows, sent, max) && RowsOk(rows, max)
    ensures RowsOk(rows + t.writes, max) && (rows + t.writes).Keys == rows.Keys
    ensures forall id :: id in rows && id !in t.claimed ==> (rows + t.writes)[id] == rows[id]
    ensures forall id :: id in rows && Published((rows + t.writes)[id]) ==> Published(rows[id]) || id in sent
  {
    forall id | id in t.writes
      ensures id in t.claimed && id in rows
      ensures RowOk(t.writes[id], max) && (Published(t.writes[id]) ==> id in sent)
    {
      var i := WriteIsAnAttempt(t, rows, sent, max, id);
    }
    hide RowOk, TxnOk;
  }

  lemma CommitKeeps(s: State, w: Worker, c: Config)
    requires Inv(s, c) && Enabled(s, Commit(w), c)
    ensures Inv(Apply(s, Commit(w), c), c)
  {
    var s' := Apply(s, Commit(w), c);
    CommittedRows(s.txns[w], s.rows, s.sent, c.max);
    hide RowsOk, TxnOk;
    forall v | v in s'.txns ensures TxnOk(s'.txns[v], s'.rows, s'.sent, c.max) {
      assert v in s.txns && v != w;
      TxnRowsStay(s, w, v, s'.rows, c.max);
    }
  }

  lemma TxnRowsStay(s: State, w: Worker, v: Worker, rows': map<Id, Row>, max: nat)
    requires TxnsOk(s, max) && v in s.txns && w in s.txns && v != w
    requires rows'.Keys == s.rows.Keys
    requires forall id :: id in s.rows && id !in s.txns[w].claimed ==> rows'[id] == s.rows[id]
    ensures TxnOk(s.txns[v], rows', s.sent, max)
  {
    TxnFrame(s.txns[v], s.rows, rows', s.sent, s.sent, max);
  }

  lemma ReplayWriteKeeps(s: State, w: Worker, c: Config)
    requires Inv(s, c) && Enabled(s, ReplayWrite(w), c)
    ensures Inv(Apply(s, ReplayWrite(w), c), c)
  {
    var s' := Apply(s, ReplayWrite(w), c);
    var id := s.replays[w];
    if id in s.rows {
      assert s'.rows.Keys == s.rows.Keys;
    }
    forall v | v in s.txns ensures TxnOk(s.txns[v], s'.rows, s'.sent, c.max) {
      assert id !in s.txns[v].claimed;
      TxnFrame(s.txns[v], s.rows, s'.rows, s.sent, s'.sent, c.max);
    }
  }

  lemma PruneAccounts(s: State, victims: set<Id>)
    requires Accounted(s) && forall id :: id in victims ==> id in s.rows && Published(s.rows[id])
    ensures Accounted(s.(rows := s.rows - victims, pruned := s.pruned + victims))
  {
    var rows := s.rows - victims;
    assert rows.Keys == s.rows.Keys - victims;
    assert rows.Keys + (s.pruned + victims) == s.rows.Keys + s.pruned;
  }

  lemma VictimsArePublished(s: State, victims: set<Id>, cutoff: int, c: Config)
    requires Enabled(s, Prune(victims, cutoff), c)
    ensures forall id :: id in victims ==> id in s.rows && Published(s.rows[id])
  {
  }

  lemma PruneKeeps(s: State, victims: set<Id>, cutoff: int, c: Config)
    requires Inv(s, c) && Enabled(s, Prune(victims, cutoff), c)
    ensures Inv(Apply(s, Prune(victims, cutoff), c), c)
  {
    hide Writes, Deliveries, RowOk, Accounted, Enabled;
    VictimsArePublished(s, victims, cutoff, c);
    PruneAccounts(s, victims);
    var s' := Apply(s, Prune(victims, cutoff), c);
    forall w | w in s.txns ensures TxnOk(s.txns[w], s'.rows, s'.sent, c.max) {
      TxnFrame(s.txns[w], s.rows, s'.rows, s.sent, s'.sent, c.max);
    }
  }

  /** What every step of every participant keeps. */
  lemma StepKeeps(s: State, step: Step, c: Config)
    requires Inv(s, c) && Enabled(s, step, c)
    ensures Inv(Apply(s, step, c), c)
  {
    match step
    case Append(id, at) => AppendKeeps(s, id, at, c);
    case Claim(w, claimed) => ClaimKeeps(s, w, claimed, c);
    case Attempt(w, out) => AttemptKeeps(s, w, out, c);
    case Commit(w) => CommitKeeps(s, w, c);
    case Abort(w) =>
    case ReplayRead(w, id) =>
    case ReplayWrite(w) => ReplayWriteKeeps(s, w, c);
    case Prune(victims, cutoff) => PruneKeeps(s, victims, cutoff, c);
  }

  // ---------------------------------------------------------------- whole runs

  ghost predicate Legal(s: State, run: seq<Step>, c: Config)
    decreases |run|
  {
    run == [] || (Enabled(s, run[0], c) && Legal(Apply(s, run[0], c), run[1..], c))
  }

  ghost function Run(s: State, run: seq<Step>, c: Config): State
    requires Legal(s, run, c)
    decreases |run|
  {
    if run == [] then s else Run(Apply(s, run[0], c), run[1..], c)
  }

  lemma {:induction false} RunKeeps(s: State, run: seq<Step>, c: Config)
    requires Inv(s, c) && Legal(s, run, c)
    ensures Inv(Run(s, run, c), c)
    decreases |run|
  {
    if run != [] {
      StepKeeps(s, run[0], c);
      RunKeeps(Apply(s, run[0], c), run[1..], c);
    }
  }

  lemma RunOf(s: State, step: Step, rest: seq<Step>, c: Config)
    requires Enabled(s, step, c) && Legal(Apply(s, step, c), rest, c)
    ensures Legal(s, [step] + rest, c) && Run(s, [step] + rest, c) == Run(Apply(s, step, c), rest, c)
  {
    assert ([step] + rest)[1..] == rest;
  }

  /**
   No event is lost: whatever the interleaving, every row ever appended is
   still there, pending, quarantined with exactly the maximum of attempts, or
   published after a dispatch the queue accepted; or retention deleted it after
   such a dispatch.  No two open sweeps hold the same row.
   */
  lemma NoEventIsLost(run: seq<Step>, c: Config)
    requires 1 <= c.max && Legal(Init(), run, c)
    ensures var s := Run(Init(), run, c);
      && (forall id :: id in s.appended ==>
           if id in s.rows then
             var r := s.rows[id];
             || (Pending(r) && r.attempts < c.max)
             || (Quarantined(r) && r.attempts == c.max)
             || (Published(r) && r.dlqedAt.None? && id in s.sent)
           else
             id in s.pruned && id in s.sent)
      && (forall v, w, id :: v in s.txns && w in s.txns && v != w && id in s.txns[v].claimed ==>
           id !in s.txns[w].claimed)
  {
    RunKeeps(Init(), run, c);
  }

  /** A published row stays published, with its timestamp, until retention deletes it; a pruned row stays gone. */
  lemma PublishedIsForEver(s: State, step: Step, c: Config, id: Id)
    requires Inv(s, c) && Enabled(s, step, c)
    requires id in s.pruned || (id in s.rows && Published(s.rows[id]))
    ensures var s' := Apply(s, step, c);
      || (id in s'.pruned && id !in s'.rows)
      || (id in s'.rows && id in s.rows && Published(s.rows[id]) && s'.rows[id].publishedAt == s.rows[id].publishedAt)
  {
    StepKeeps(s, step, c);
    if step.Commit? && id in s.txns[step.w].writes {
      var i := WriteIsAnAttempt(s.txns[step.w], s.rows, s.sent, c.max, id);
    }
  }

  /** A quarantined row moves only when an operator replays it. */
  lemma QuarantineWaitsForAnOperator(s: State, step: Step, c: Config, id: Id)
    requires Inv(s, c) && Enabled(s, step, c)
    requires id in s.rows && Quarantined(s.rows[id])
    requires !(step.ReplayWrite? && s.replays[step.w] == id)
    ensures var s' := Apply(s, step, c);
      id in s'.rows && s'.rows[id] == s.rows[id]
  {
    if step.Commit? && id in s.txns[step.w].writes {
      var i := WriteIsAnAttempt(s.txns[step.w], s.rows, s.sent, c.max, id);
    }
  }

  // ---------------------------------------------------------------- retries drain

  /** The attempts a row has left. */
  function Weight(r: Row, max: nat): nat {
    if Pending(r) && r.attempts <= max then max - r.attempts else 0
  }

  ghost function Potential(rows: map<Id, Row>, max: nat): nat {
    if rows == map[] then 0
    else
      var id :| id in rows;
      Weight(rows[id], max) + Potential(rows - {id}, max)
  }

  lemma {:induction false} PotentialSplits(rows: map<Id, Row>, max: nat, id: Id)
    requires id in rows
    ensures Potential(rows, max) == Weight(rows[id], max) + Potential(rows - {id}, max)
  {
    var k :| k in rows && Potential(rows, max) == Weight(rows[k], max) + Potential(rows - {k}, max);
    if k != id {
      PotentialSplits(rows - {k}, max, id);
      PotentialSplits(rows - {id}, max, k);
      assert rows - {k} - {id} == rows - {id} - {k};
    }
  }

  lemma PotentialUpdate(rows: map<Id, Row>, max: nat, id: Id, r: Row)
    requires id in rows
    ensures Potential(rows[id := r], max) == Potential(rows, max) - Weight(rows[id], max) + Weight(r, max)
  {
    PotentialSplits(rows, max, id);
    PotentialSplits(rows[id := r], max, id);
    assert rows[id := r] - {id} == rows - {id};
  }

  lemma AttemptSpends(r: Row, out: Outcome, max: nat)
    requires Pending(r) && RowOk(r, max)
    ensures Weight(AfterAttempt(r, out, max), max) + 1 <= Weight(r, max)
  {
  }

  /** A sweep that commits spends at least one attempt for every row it claimed. */
  lemma {:induction false} SweepSpends(rows: map<Id, Row>, claimed: seq<Id>, outs: seq<Outcome>, max: nat)
    requires |outs| <= |claimed| && Distinct(claimed) && RowsOk(rows, max)
    requires forall id :: id in claimed ==> id in rows && Pending(rows[id])
    ensures Potential(rows + Writes(rows, claimed, outs, max), max) + |outs| <= Potential(rows, max)
    decreases |outs|
  {
    hide AfterAttempt, Weight, Potential, RowOk;
    if outs == [] {
      assert rows + map[] == rows;
    } else {
      var n := |outs| - 1;
      var id := claimed[n];
      var before := Writes(rows, claimed, outs[..n], max);
      var r := AfterAttempt(rows[id], outs[n], max);
      SweepSpends(rows, claimed, outs[..n], max);
      NotYetWritten(rows, claimed, outs[..n], max, n);
      assert (rows + before)[id] == rows[id];
      assert rows + before[id := r] == (rows + before)[id := r];
      PotentialUpdate(rows + before, max, id, r);
      assert RowOk(rows[id], max);
      AttemptSpends(rows[id], outs[n], max);
    }
  }

  lemma {:induction false} PruningSpendsNothing(rows: map<Id, Row>, max: nat, victims: set<Id>)
    requires forall id :: id in victims ==> id in rows && Published(rows[id])
    ensures Potential(rows - victims, max) == Potential(rows, max)
    decreases victims
  {
    if victims == {} {
      assert rows - victims == rows;
    } else {
      var id :| id in victims;
      PotentialSplits(rows, max, id);
      PruningSpendsNothing(rows - {id}, max, victims - {id});
      assert rows - {id} - (victims - {id}) == rows - victims;
    }
  }

  /** How many rows a step's commit processes. */
  ghost function Processed(s: State, step: Step): nat
  {
    if step.Commit? && step.w in s.txns then |s.txns[step.w].claimed| else 0
  }

  lemma StepSpends(s: State, step: Step, c: Config)
    requires Inv(s, c) && Enabled(s, step, c) && !step.Append? && !step.ReplayWrite?
    ensures Potential(Apply(s, step, c).rows, c.max) + Processed(s, step) <= Potential(s.rows, c.max)
  {
    if step.Commit? {
      var t := s.txns[step.w];
      SweepSpends(s.rows, t.claimed, t.outs, c.max);
    } else if step.Prune? {
      PruningSpendsNothing(s.rows, c.max, step.victims);
    }
  }

  ghost function ProcessedIn(s: State, run: seq<Step>, c: Config): nat
    requires Legal(s, run, c)
    decreases |run|
  {
    if run == [] then 0 else Processed(s, run[0]) + ProcessedIn(Apply(s, run[0], c), run[1..], c)
  }

  /**
   Retries drain: in a run with no new rows and no replays, however it
   interleaves and however many sweeps abort, the rows committed in sweeps,
   each counted every time it is, number no more than the attempts that were left.
   */
  lemma {:induction false} RetriesAreBounded(s: State, run: seq<Step>, c: Config)
    requires Inv(s, c) && Legal(s, run, c)
    requires forall step :: step in run ==> !step.Append? && !step.ReplayWrite?
    ensures Potential(Run(s, run, c).rows, c.max) + ProcessedIn(s, run, c) <= Potential(s.rows, c.max)
    decreases |run|
  {
    if run != [] {
      StepSpends(s, run[0], c);
      StepKeeps(s, run[0], c);
      RetriesAreBounded(Apply(s, run[0], c), run[1..], c);
    }
  }

  /** Nothing is left to spend exactly when every row is published or quarantined. */
  lemma {:induction false} DrainedMeansSettled(rows: map<Id, Row>, max: nat)
    requires RowsOk(rows, max)
    ensures Potential(rows, max) == 0 <==> forall id :: id in rows ==> Published(rows[id]) || Quarantined(rows[id])
  {
    if rows != map[] {
      var id :| id in rows;
      PotentialSplits(rows, max, id);
      DrainedMeansSettled(rows - {id}, max);
      assert RowOk(rows[id], max);
      assert forall k :: k in rows <==> k == id || k in rows - {id};
    }
  }

  /** And until then a sweeper that starts when no other is open finds work. */
  lemma UnsettledRowsAreClaimed(s: State, w: Worker, claimed: seq<Id>, c: Config)
    requires Inv(s, c) && 1 <= c.batch && s.txns == map[] && Enabled(s, Claim(w, claimed), c)
    ensures claimed == [] <==> Potential(s.rows, c.max) == 0
  {
    DrainedMeansSettled(s.rows, c.max);
    assert Locked(s) == {};
    if claimed != [] {
      assert claimed[0] in Claimable(s.rows, {});
    } else {
      assert forall id :: id in s.rows ==> id !in Claimable(s.rows, {});
    }
  }

  // ---------------------------------------------------------------- one sweep, alone

  function SweepSteps(w: Worker, outs: seq<Outcome>): seq<Step> {
    if outs == [] then [Commit(w)] else [Attempt(w, outs[0])] + SweepSteps(w, outs[1..])
  }

  /** The state in which w has claimed and dispatched as far as `outs` goes. */
  function MidSweep(s: State, w: Worker, claimed: seq<Id>, outs: seq<Outcome>, c: Config): State
    requires |outs| <= |claimed| && forall id :: id in claimed ==> id in s.rows
  {
    s.(txns := s.txns[w := Txn(claimed, outs, Writes(s.rows, claimed, outs, c.max))],
       sent := s.sent + Deliveries(claimed, outs))
  }

  lemma MidSweepStep(s: State, w: Worker, claimed: seq<Id>, done: seq<Outcome>, out: Outcome, c: Config)
    requires |done| < |claimed| && forall id :: id in claimed ==> id in s.rows
    ensures Enabled(MidSweep(s, w, claimed, done, c), Attempt(w, out), c)
    ensures Apply(MidSweep(s, w, claimed, done, c), Attempt(w, out), c) == MidSweep(s, w, claimed, done + [out], c)
  {
    assert (done + [out])[..|done|] == done;
    if out.Delivered? {
      assert s.sent + Deliveries(claimed, done) + [claimed[|done|]] == s.sent + Deliveries(claimed, done + [out]);
    }
  }

  lemma CommitEndsSweep(s: State, w: Worker, claimed: seq<Id>, outs: seq<Outcome>, c: Config)
    requires |outs| == |claimed| && w !in s.txns && forall id :: id in claimed ==> id in s.rows
    ensures Enabled(MidSweep(s, w, claimed, outs, c), Commit(w), c)
    ensures Apply(MidSweep(s, w, claimed, outs, c), Commit(w), c) ==
      s.(rows := s.rows + Writes(s.rows, claimed, outs, c.max), sent := s.sent + Deliveries(claimed, outs))
  {
    assert MidSweep(s, w, claimed, outs, c).txns - {w} == s.txns;
  }

  lemma {:induction false} SweepFinishes(
    s: State, w: Worker, claimed: seq<Id>, done: seq<Outcome>, rest: seq<Outcome>, c: Config)
    requires |done| + |rest| == |claimed| && w !in s.txns && forall id :: id in claimed ==> id in s.rows
    ensures Legal(MidSweep(s, w, claimed, done, c), SweepSteps(w, rest), c)
    ensures Run(MidSweep(s, w, claimed, done, c), SweepSteps(w, rest), c) ==
      s.(rows := s.rows + Writes(s.rows, claimed, done + rest, c.max), sent := s.sent + Deliveries(claimed, done + rest))
    decreases |rest|
  {
    hide MidSweep, Enabled, Apply, Writes, Deliveries;
    if rest == [] {
      assert done + rest == done;
      CommitEndsSweep(s, w, claimed, done, c);
      assert SweepSteps(w, rest)[1..] == [];
    } else {
      MidSweepStep(s, w, claimed, done, rest[0], c);
      SweepFinishes(s, w, claimed, done + [rest[0]], rest[1..], c);
      assert done + [rest[0]] + rest[1..] == done + rest;
      assert SweepSteps(w, rest)[1..] == SweepSteps(w, rest[1..]);
    }
  }

  /** Left alone, a sweep's steps do to the rows and the queues what OutboxTable.ProcessOnce promises of one call. */
  lemma LoneSweepIsProcessOnce(s: State, w: Worker, claimed: seq<Id>, outs: seq<Outcome>, c: Config)
    requires Enabled(s, Claim(w, claimed), c) && |outs| == |claimed|
    requires forall id :: id in claimed ==> id in s.rows
    ensures var claimedNow := Apply(s, Claim(w, claimed), c);
      && Legal(claimedNow, SweepSteps(w, outs), c)
      && Run(claimedNow, SweepSteps(w, outs), c) ==
           s.(rows := s.rows + Writes(s.rows, claimed, outs, c.max), sent := s.sent + Deliveries(claimed, outs))
  {
    assert Apply(s, Claim(w, claimed), c) == MidSweep(s, w, claimed, [], c) by {
      assert s.sent + [] == s.sent;
    }
    SweepFinishes(s, w, claimed, [], outs, c);
    assert [] + outs == outs;
  }

  // ---------------------------------------------------------------- sweeping until everything is settled

  /** A committed sweep that runs while no other is open. */
  datatype Sweep = Sweep(w: Worker, claimed: seq<Id>, outs: seq<Outcome>)

  function SweepRun(sweep: Sweep): seq<Step> { [Claim(sweep.w, sweep.claimed)] + SweepSteps(sweep.w, sweep.outs) }

  ghost predicate IsSweep(s: State, sweep: Sweep, c: Config) {
    s.txns == map[] && Enabled(s, Claim(sweep.w, sweep.claimed), c) && |sweep.outs| == |sweep.claimed|
  }

  /** Consecutive sweeps, whatever each finds and however its dispatches end. */
  ghost predicate Sweeps(s: State, sweeps: seq<Sweep>, c: Config)
    decreases |sweeps|
  {
    sweeps == [] ||
    (IsSweep(s, sweeps[0], c) && Legal(s, SweepRun(sweeps[0]), c) && Sweeps(Run(s, SweepRun(sweeps[0]), c), sweeps[1..], c))
  }

  ghost function AfterSweeps(s: State, sweeps: seq<Sweep>, c: Config): State
    requires Sweeps(s, sweeps, c)
    decreases |sweeps|
  {
    if sweeps == [] then s else AfterSweeps(Run(s, SweepRun(sweeps[0]), c), sweeps[1..], c)
  }

  /** A sweep that no other is open beside is always possible, however its dispatches end. */
  lemma SweepExists(s: State, w: Worker, fate: nat -> Outcome, c: Config) returns (sweep: Sweep)
    requires s.txns == map[]
    ensures IsSweep(s, sweep, c) && sweep.w == w
    ensures forall i :: 0 <= i < |sweep.outs| ==> sweep.outs[i] == fate(i)
  {
    var claimed := AnswerExists(Claimable(s.rows, Locked(s)), c.batch);
    sweep := Sweep(w, claimed, seq(|claimed|, i requires 0 <= i < |claimed| => fate(i)));
  }

  /** The dispatches end as foretold, by how many sweeps are left and the row's place in the claim. */
  predicate Fated(sweeps: seq<Sweep>, fates: nat -> nat -> Outcome)
    decreases |sweeps|
  {
    sweeps == [] ||
    ((forall i :: 0 <= i < |sweeps[0].outs| ==> sweeps[0].outs[i] == fates(|sweeps|)(i)) && Fated(sweeps[1..], fates))
  }

  /** And so is any number of them, one after the other. */
  lemma {:induction false} SweepsExist(s: State, n: nat, w: Worker, fates: nat -> nat -> Outcome, c: Config)
    returns (sweeps: seq<Sweep>)
    requires Inv(s, c) && 1 <= c.batch && s.txns == map[]
    ensures |sweeps| == n && Sweeps(s, sweeps, c) && Fated(sweeps, fates)
    decreases n
  {
    hide Inv, Enabled, SweepRun, Legal, Run, IsSweep;
    if n == 0 {
      sweeps := [];
    } else {
      var sweep := SweepExists(s, w, fates(n), c);
      OneSweepSpends(s, sweep, c);
      RunKeeps(s, SweepRun(sweep), c);
      var rest := SweepsExist(Run(s, SweepRun(sweep), c), n - 1, w, fates, c);
      sweeps := [sweep] + rest;
    }
  }

  lemma ClaimsAreStored(s: State, sweep: Sweep, c: Config)
    requires IsSweep(s, sweep, c)
    ensures Distinct(sweep.claimed) && forall id :: id in sweep.claimed ==> id in s.rows && Pending(s.rows[id])
  {
  }

  /** Such a sweep is a run of the protocol, and leaves fewer attempts unless there were none. */
  lemma OneSweepSpends(s: State, sweep: Sweep, c: Config)
    requires Inv(s, c) && 1 <= c.batch && IsSweep(s, sweep, c)
    ensures Legal(s, SweepRun(sweep), c)
    ensures var s' := Run(s, SweepRun(sweep), c);
      && s'.txns == map[] && s'.rows.Keys == s.rows.Keys
      && (Potential(s'.rows, c.max) == 0 || Potential(s'.rows, c.max) < Potential(s.rows, c.max))
  {
    hide Inv, Potential, Enabled, Apply, Legal, Run, SweepRun, Writes;
    ClaimsAreStored(s, sweep, c);
    SweepIsARun(s, sweep, c);
    RowsAreOk(s, c);
    UnsettledRowsAreClaimed(s, sweep.w, sweep.claimed, c);
    SweepSpends(s.rows, sweep.claimed, sweep.outs, c.max);
    WritesOnlyClaims(s.rows, sweep.claimed, sweep.outs, c.max);
  }

  lemma RowsAreOk(s: State, c: Config)
    requires Inv(s, c)
    ensures RowsOk(s.rows, c.max)
  {
  }

  lemma {:induction false} WritesOnlyClaims(rows: map<Id, Row>, claimed: seq<Id>, outs: seq<Outcome>, max: nat)
    requires |outs| <= |claimed| && forall id :: id in claimed ==> id in rows
    ensures (rows + Writes(rows, claimed, outs, max)).Keys == rows.Keys
    decreases |outs|
  {
    if outs != [] {
      WritesOnlyClaims(rows, claimed, outs[..|outs| - 1], max);
    }
  }

  lemma SweepIsARun(s: State, sweep: Sweep, c: Config)
    requires IsSweep(s, sweep, c) && forall id :: id in sweep.claimed ==> id in s.rows
    ensures Legal(s, SweepRun(sweep), c)
    ensures Run(s, SweepRun(sweep), c) ==
      s.(rows := s.rows + Writes(s.rows, sweep.claimed, sweep.outs, c.max), sent := s.sent + Deliveries(sweep.claimed, sweep.outs))
  {
    LoneSweepIsProcessOnce(s, sweep.w, sweep.claimed, sweep.outs, c);
    assert SweepRun(sweep)[1..] == SweepSteps(sweep.w, sweep.outs);
  }

  lemma {:induction false} SweepsSpend(s: State, sweeps: seq<Sweep>, c: Config)
    requires Inv(s, c) && 1 <= c.batch && s.txns == map[] && Sweeps(s, sweeps, c)
    ensures var s' := AfterSweeps(s, sweeps, c);
      && RowsOk(s'.rows, c.max) && s'.rows.Keys == s.rows.Keys
      && (Potential(s'.rows, c.max) == 0 || Potential(s'.rows, c.max) + |sweeps| <= Potential(s.rows, c.max))
    decreases |sweeps|
  {
    hide Inv, Potential, Enabled, SweepRun, RowsOk, Legal, Run;
    RowsAreOk(s, c);
    if sweeps != [] {
      OneSweepSpends(s, sweeps[0], c);
      RunKeeps(s, SweepRun(sweeps[0]), c);
      SweepsSpend(Run(s, SweepRun(sweeps[0]), c), sweeps[1..], c);
    }
  }

  /**
   Sweeping settles everything: from any state a run can reach in which no
   sweep is open, as many committed sweeps as there are attempts left, run one
   after the other, leave every row published or quarantined and lose none.
   */
  lemma SweepingSettles(run: seq<Step>, sweeps: seq<Sweep>, c: Config)
    requires 1 <= c.max && 1 <= c.batch && Legal(Init(), run, c)
    requires var s := Run(Init(), run, c);
      s.txns == map[] && Sweeps(s, sweeps, c) && |sweeps| >= Potential(s.rows, c.max)
    ensures var s := Run(Init(), run, c);
      var settled := AfterSweeps(s, sweeps, c).rows;
      && settled.Keys == s.rows.Keys
      && forall id :: id in settled ==> Published(settled[id]) || Quarantined(settled[id])
  {
    RunKeeps(Init(), run, c);
    var s := Run(Init(), run, c);
    SweepsSpend(s, sweeps, c);
    DrainedMeansSettled(AfterSweeps(s, sweeps, c).rows, c.max);
  }

  /** Every open sweep can abort. */
  lemma {:induction false} AbortsExist(s: State, c: Config) returns (run: seq<Step>)
    ensures Legal(s, run, c) && Run(s, run, c) == s.(txns := map[])
    decreases |s.txns|
  {
    run := [];
    if s.txns != map[] {
      var w :| w in s.txns;
      var s' := Apply(s, Abort(w), c);
      assert s'.txns.Keys == s.txns.Keys - {w};
      var rest := AbortsExist(s', c);
      run := [Abort(w)] + rest;
    }
  }

  /** From every reachable state, open sweeps or not, everything can be settled, however the dispatches from there on end. */
  lemma SettlingIsAlwaysPossible(run: seq<Step>, w: Worker, fates: nat -> nat -> Outcome, c: Config)
    returns (aborts: seq<Step>, sweeps: seq<Sweep>)
    requires 1 <= c.max && 1 <= c.batch && Legal(Init(), run, c)
    ensures var s := Run(Init(), run, c);
      Legal(s, aborts, c) && Run(s, aborts, c).rows == s.rows && Sweeps(Run(s, aborts, c), sweeps, c)
    ensures Fated(sweeps, fates)
    ensures var s := Run(Init(), run, c);
      var settled := AfterSweeps(Run(s, aborts, c), sweeps, c).rows;
      && settled.Keys == s.rows.Keys
      && forall id :: id in settled ==> Published(settled[id]) || Quarantined(settled[id])
  {
    RunKeeps(Init(), run, c);
    var s := Run(Init(), run, c);
    aborts := AbortsExist(s, c);
    var idle := Run(s, aborts, c);
    RunKeeps(s, aborts, c);
    sweeps := SweepsExist(idle, Potential(s.rows, c.max), w, fates, c);
    SweepsSpend(idle, sweeps, c);
    DrainedMeansSettled(AfterSweeps(idle, sweeps, c).rows, c.max);
  }
}
