/**
 What an outbox row's columns mean, read off the steps of a run alone and in
 any interleaving: the attempt count is the number of committed failures since
 the row was appended or replayed, and the stamps and the error are those of
 its last dispatch (apps/api/src/workers/outbox.worker.ts).
 */
module OutboxAttempts {
  import opened OldestFirst
  import opened Outbox
  import opened OutboxProtocol
  import opened Wrappers

  /** The commit settles the row's dispatch, the i-th of its sweep. */
  predicate Settles(s: State, step: Step, id: Id, i: nat) {
    && step.Commit? && step.w in s.txns
    && i < |s.txns[step.w].outs| <= |s.txns[step.w].claimed| && s.txns[step.w].claimed[i] == id
  }

  ghost predicate Fails(s: State, step: Step, id: Id) {
    exists i: nat :: Settles(s, step, id, i) && s.txns[step.w].outs[i].Failed?
  }

  /** An operator's replay of the row, or its first commit. */
  predicate StartsOver(s: State, step: Step, id: Id) {
    (step.Append? && step.id == id) || (step.ReplayWrite? && step.w in s.replays && s.replays[step.w] == id)
  }

  /** The failures committed for a row since it last started over, n of them before the run. */
  ghost function Failures(s: State, run: seq<Step>, c: Config, id: Id, n: nat): nat
    requires Legal(s, run, c)
    decreases |run|
  {
    if run == [] then n
    else Failures(Apply(s, run[0], c), run[1..], c, id, Counted(s, run[0], id, n))
  }

  ghost function Counted(s: State, step: Step, id: Id, n: nat): nat {
    if StartsOver(s, step, id) then 0 else if Fails(s, step, id) then n + 1 else n
  }

  // ---------------------------------------------------------------- one commit

  /**
   A commit settles each of its rows by the row's own dispatch.  Delivered: the
   row is published at that instant, its error cleared, its attempts kept.
   Failed: one more attempt, the first thousand characters of the error, and
   quarantine at that instant exactly if no attempt is left.
   */
  lemma CommitTells(s: State, step: Step, c: Config, id: Id, i: nat)
    requires Inv(s, c) && Enabled(s, step, c) && Settles(s, step, id, i)
    ensures id in s.rows && id in Apply(s, step, c).rows && Pending(s.rows[id])
    ensures var before, after, out := s.rows[id], Apply(s, step, c).rows[id], s.txns[step.w].outs[i];
      && after.createdAt == before.createdAt
      && (out.Delivered? ==>
           && after.publishedAt == Some(out.at) && after.dlqedAt == None
           && after.publishError == None && after.attempts == before.attempts)
      && (out.Failed? ==>
           && after.publishedAt == None && after.attempts == before.attempts + 1
           && after.dlqedAt == (if before.attempts + 1 < c.max then None else Some(out.at))
           && after.publishError.Some? && after.publishError.value <= out.message
           && |after.publishError.value| == if |out.message| < 1000 then |out.message| else 1000)
  {
    var t := s.txns[step.w];
    assert id in t.claimed;
    WritesAt(s.rows, t.claimed, t.outs, c.max, i);
  }

  /** What starts over is pending, untried and without an error; a replay keeps the time of creation. */
  lemma StartsAfresh(s: State, step: Step, c: Config, id: Id)
    requires Inv(s, c) && Enabled(s, step, c) && StartsOver(s, step, id) && id in Apply(s, step, c).rows
    ensures var after := Apply(s, step, c).rows[id];
      && after.attempts == 0 && after.publishError == None && after.dlqedAt == None
      && (step.Append? ==> after.createdAt == step.at && after.publishedAt == None)
      && (step.ReplayWrite? ==>
           id in s.rows && after.createdAt == s.rows[id].createdAt && after.publishedAt == s.rows[id].publishedAt)
  {
  }

  /** An operator can replay exactly the rows with a quarantine stamp, and a quarantined row then waits to be swept again. */
  lemma ReplaysReturnARow(s: State, c: Config, w: Worker, id: Id)
    requires Inv(s, c) && w !in s.replays && id in s.rows
    ensures Enabled(s, ReplayRead(w, id), c) <==> s.rows[id].dlqedAt.Some?
    ensures Quarantined(s.rows[id]) ==>
      var run := [ReplayRead(w, id)] + ([ReplayWrite(w)] + []);
      && Legal(s, run, c)
      && id in Run(s, run, c).rows && Pending(Run(s, run, c).rows[id]) && Run(s, run, c).rows[id].attempts == 0
  {
    if Quarantined(s.rows[id]) {
      var read := Apply(s, ReplayRead(w, id), c);
      var written := Apply(read, ReplayWrite(w), c);
      RunOf(read, ReplayWrite(w), [], c);
      RunOf(s, ReplayRead(w, id), [ReplayWrite(w)] + [], c);
    }
  }

  /** No other step touches a row, short of retention deleting it. */
  lemma OthersLeaveAlone(s: State, step: Step, c: Config, id: Id)
    requires Inv(s, c) && Enabled(s, step, c) && !StartsOver(s, step, id) && id in Apply(s, step, c).rows
    requires forall i: nat :: !Settles(s, step, id, i)
    ensures id in s.rows && Apply(s, step, c).rows[id] == s.rows[id]
  {
    if step.Commit? && id in s.txns[step.w].writes {
      var i := WriteIsAnAttempt(s.txns[step.w], s.rows, s.sent, c.max, id);
      assert Settles(s, step, id, i);
    }
  }

  /** Retention deletes only rows published before its cutoff and not quarantined, and no more than a batch of them. */
  lemma WhatRetentionDeletes(s: State, step: Step, c: Config, id: Id)
    requires Enabled(s, step, c) && step.Prune? && id in s.rows
    ensures |step.victims| <= c.batch
    ensures id !in Apply(s, step, c).rows ==>
      s.rows[id].publishedAt.Some? && s.rows[id].publishedAt.value < step.cutoff && s.rows[id].dlqedAt.None?
    ensures id in Apply(s, step, c).rows <==> id !in step.victims
  {
  }

  /** And it may delete any of those. */
  lemma WhatRetentionMayDelete(s: State, c: Config, id: Id, cutoff: int)
    requires 1 <= c.batch && id in s.rows
    ensures Enabled(s, Prune({id}, cutoff), c) <==>
      s.rows[id].publishedAt.Some? && s.rows[id].publishedAt.value < cutoff && s.rows[id].dlqedAt.None?
  {
  }

  lemma SettlesOnce(s: State, step: Step, c: Config, id: Id, i: nat, j: nat)
    requires Inv(s, c) && Settles(s, step, id, i) && Settles(s, step, id, j)
    ensures i == j
  {
    assert TxnOk(s.txns[step.w], s.rows, s.sent, c.max);
  }

  lemma StepCounts(s: State, step: Step, c: Config, id: Id, n: nat)
    requires Inv(s, c) && Enabled(s, step, c)
    requires id in s.rows ==> s.rows[id].attempts == n
    ensures var s' := Apply(s, step, c); id in s'.rows ==> s'.rows[id].attempts == Counted(s, step, id, n)
  {
    hide Inv, Enabled, Apply;
    if id in Apply(s, step, c).rows {
      if StartsOver(s, step, id) {
        StartsAfresh(s, step, c, id);
      } else if i: nat :| Settles(s, step, id, i) {
        CommitTells(s, step, c, id, i);
        forall j: nat | Settles(s, step, id, j) ensures i == j {
          SettlesOnce(s, step, c, id, i, j);
        }
      } else {
        OthersLeaveAlone(s, step, c, id);
      }
    }
  }

  // ---------------------------------------------------------------- whole runs

  lemma {:induction false} RunCounts(s: State, run: seq<Step>, c: Config, id: Id, n: nat)
    requires Inv(s, c) && Legal(s, run, c)
    requires id in s.rows ==> s.rows[id].attempts == n
    ensures var s' := Run(s, run, c); id in s'.rows ==> s'.rows[id].attempts == Failures(s, run, c, id, n)
    decreases |run|
  {
    hide Inv, Enabled, Apply, Counted;
    if run != [] {
      StepCounts(s, run[0], c, id, n);
      StepKeeps(s, run[0], c);
      RunCounts(Apply(s, run[0], c), run[1..], c, id, Counted(s, run[0], id, n));
    }
  }

  /**
   Over every run the attempts of a stored row are its committed failures since
   it was appended or last replayed; while it is unpublished, it is quarantined
   if and only if there were as many as the maximum, and pending otherwise.
   */
  lemma AttemptsAreFailures(run: seq<Step>, c: Config, id: Id)
    requires 1 <= c.max && Legal(Init(), run, c) && id in Run(Init(), run, c).rows
    ensures var r, failures := Run(Init(), run, c).rows[id], Failures(Init(), run, c, id, 0);
      && r.attempts == failures
      && (r.publishedAt.None? ==> failures <= c.max && (r.dlqedAt.Some? <==> failures == c.max))
  {
    RunCounts(Init(), run, c, id, 0);
    RunKeeps(Init(), run, c);
    assert RowOk(Run(Init(), run, c).rows[id], c.max);
    hide Legal, Run, Failures;
  }

  /** So a row has as many attempts as the maximum, and a failure spends exactly one of them; a delivery ends them. */
  lemma FailuresSpendOne(s: State, step: Step, c: Config, id: Id, i: nat)
    requires Inv(s, c) && Enabled(s, step, c) && Settles(s, step, id, i)
    ensures id in s.rows && id in Apply(s, step, c).rows
    ensures Weight(s.rows[id], c.max) >= 1
    ensures Weight(Apply(s, step, c).rows[id], c.max) ==
      if s.txns[step.w].outs[i].Failed? then Weight(s.rows[id], c.max) - 1 else 0
    ensures Weight(NewRow(0), c.max) == c.max
  {
    CommitTells(s, step, c, id, i);
    assert RowOk(s.rows[id], c.max);
    hide Apply;
  }
}
