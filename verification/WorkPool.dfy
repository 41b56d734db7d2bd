/**
 Workers draining one shared queue: each of up to `workers` loops shifts the
 next item, handles it, and comes back (apps/api/src/workers/lender-polling.worker.ts,
 apps/api/src/workers/pii-reencryption.worker.ts).  Items are the indices of
 the batch; the queue is the run of indices from `next` on.
 */
module WorkPool {

  type Worker = nat

  datatype Pool = Pool(
    next: nat,               // the head of the queue
    busy: map<Worker, nat>,  // what each worker holds between shift and finish
    done: seq<nat>)          // items in the order they were finished

  datatype Step = Shift(w: Worker) | Finish(w: Worker)

  /** n items, and as many loops as the batch and the limit allow. */
  datatype Shape = Shape(n: nat, workers: nat)

  function Start(): Pool { Pool(0, map[], []) }

  predicate Enabled(p: Pool, s: Step, shape: Shape) {
    match s
    case Shift(w) => w < shape.workers && w !in p.busy && p.next < shape.n
    case Finish(w) => w in p.busy
  }

  function Apply(p: Pool, s: Step, shape: Shape): Pool
    requires Enabled(p, s, shape)
  {
    match s
    case Shift(w) => p.(next := p.next + 1, busy := p.busy[w := p.next])
    case Finish(w) => p.(busy := p.busy - {w}, done := p.done + [p.busy[w]])
  }

  /** Every worker has left its loop. */
  predicate Drained(p: Pool, shape: Shape) { p.next == shape.n && p.busy == map[] }

  ghost predicate Held(p: Pool, k: nat) { exists w :: w in p.busy && p.busy[w] == k }

  /** Everything shifted so far is in exactly one place: one worker's hands, or finished once. */
  ghost predicate Inv(p: Pool, shape: Shape) {
    && p.next <= shape.n
    && (forall w :: w in p.busy ==> w < shape.workers && p.busy[w] < p.next && p.busy[w] !in p.done)
    && (forall v, w :: v in p.busy && w in p.busy && v != w ==> p.busy[v] != p.busy[w])
    && (forall i :: 0 <= i < |p.done| ==> p.done[i] < p.next)
    && (forall i, j :: 0 <= i < j < |p.done| ==> p.done[i] != p.done[j])
    && (forall k: nat :: k < p.next ==> k in p.done || Held(p, k))
    && |p.done| + |p.busy| == p.next
  }

  lemma ShiftKeeps(p: Pool, w: Worker, shape: Shape)
    requires Inv(p, shape) && Enabled(p, Shift(w), shape)
    ensures Inv(Apply(p, Shift(w), shape), shape)
  {
    var p' := Apply(p, Shift(w), shape);
    assert |p'.busy| == |p.busy| + 1;
    forall k: nat | k < p'.next ensures k in p'.done || Held(p', k) {
      if k == p.next {
        assert p'.busy[w] == k;
      } else if k !in p.done {
        assert Held(p, k);
        var v :| v in p.busy && p.busy[v] == k;
        assert p'.busy[v] == k;
      }
    }
  }

  lemma RemovalShrinks(m: map<Worker, nat>, w: Worker)
    requires w in m
    ensures |m - {w}| == |m| - 1
  {
    assert (m - {w}).Keys == m.Keys - {w};
    assert |m.Keys| == |m| && |(m - {w}).Keys| == |m - {w}|;
  }

  lemma FinishLosesNothing(p: Pool, w: Worker, k: nat)
    requires w in p.busy && (k in p.done || Held(p, k))
    ensures var p' := p.(busy := p.busy - {w}, done := p.done + [p.busy[w]]); k in p'.done || Held(p', k)
  {
    var p' := p.(busy := p.busy - {w}, done := p.done + [p.busy[w]]);
    if k !in p.done {
      var v :| v in p.busy && p.busy[v] == k;
      assert v != w ==> v in p'.busy && p'.busy[v] == k;
    }
  }

  lemma FinishKeeps(p: Pool, w: Worker, shape: Shape)
    requires Inv(p, shape) && Enabled(p, Finish(w), shape)
    ensures Inv(Apply(p, Finish(w), shape), shape)
  {
    hide Held;
    RemovalShrinks(p.busy, w);
    forall k: nat | k < p.next
      ensures k in Apply(p, Finish(w), shape).done || Held(Apply(p, Finish(w), shape), k)
    {
      FinishLosesNothing(p, w, k);
    }
  }

  lemma StepKeeps(p: Pool, s: Step, shape: Shape)
    requires Inv(p, shape) && Enabled(p, s, shape)
    ensures Inv(Apply(p, s, shape), shape)
  {
    match s
    case Shift(w) => ShiftKeeps(p, w, shape);
    case Finish(w) => FinishKeeps(p, w, shape);
  }

  ghost predicate Legal(p: Pool, run: seq<Step>, shape: Shape)
    decreases |run|
  {
    run == [] || (Enabled(p, run[0], shape) && Legal(Apply(p, run[0], shape), run[1..], shape))
  }

  ghost function Run(p: Pool, run: seq<Step>, shape: Shape): Pool
    requires Legal(p, run, shape)
    decreases |run|
  {
    if run == [] then p else Run(Apply(p, run[0], shape), run[1..], shape)
  }

  lemma {:induction false} RunKeeps(p: Pool, run: seq<Step>, shape: Shape)
    requires Inv(p, shape) && Legal(p, run, shape)
    ensures Inv(Run(p, run, shape), shape)
    ensures |run| + Todo(Run(p, run, shape), shape) == Todo(p, shape)
    decreases |run|
  {
    if run != [] {
      StepKeeps(p, run[0], shape);
      StepIsProgress(p, run[0], shape);
      RunKeeps(Apply(p, run[0], shape), run[1..], shape);
    }
  }

  /** The steps still to come: a shift and a finish for every queued item, a finish for every held one. */
  function Todo(p: Pool, shape: Shape): int { 2 * (shape.n - p.next) + |p.busy| }

  lemma StepIsProgress(p: Pool, s: Step, shape: Shape)
    requires Inv(p, shape) && Enabled(p, s, shape)
    ensures Todo(Apply(p, s, shape), shape) == Todo(p, shape) - 1
  {
    StepKeeps(p, s, shape);
  }

  /** Until the pool is drained some worker can move. */
  lemma NeverStuck(p: Pool, shape: Shape) returns (s: Step)
    requires Inv(p, shape) && 1 <= shape.workers && !Drained(p, shape)
    ensures Enabled(p, s, shape)
  {
    if p.busy == map[] {
      s := Shift(0);
    } else {
      var w :| w in p.busy;
      s := Finish(w);
    }
  }

  /**
   Under any interleaving, the pool is drained after exactly 2n steps and not
   before, and then every item has been handled exactly once.
   */
  lemma EveryItemOnce(run: seq<Step>, shape: Shape)
    requires Legal(Start(), run, shape)
    ensures var p := Run(Start(), run, shape);
      && |run| <= 2 * shape.n
      && (Drained(p, shape) <==> |run| == 2 * shape.n)
      && (Drained(p, shape) ==> |p.done| == shape.n && forall k: nat :: k < shape.n <==> k in p.done)
      && (forall i, j :: 0 <= i < j < |p.done| ==> p.done[i] != p.done[j])
  {
    RunKeeps(Start(), run, shape);
  }
}
