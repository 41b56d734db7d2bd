/**
 Alert rules firing and resolving (apps/api/src/workers/alert.worker.ts), with
 the operator's actions on their alerts (apps/api/src/domains/alerts/alert.routes.ts).
 One rule's turn in a cycle of one worker, or one operator request, is one step.
 */
module Alerts {
  import opened Wrappers

  type Id = nat
  type Rule = nat

  datatype AlertState = OPEN | ACKNOWLEDGED | SNOOZED | RESOLVED

  datatype Alert = Alert(rule: Rule, state: AlertState, firedAt: int,
                         acknowledgedAt: Option<int>, snoozedUntil: Option<int>, resolvedAt: Option<int>)

  predicate Active(a: Alert) { a.state != RESOLVED }

  /** A Redis value with the instant it expires. */
  datatype Stamp = Stamp(at: int, expires: int)

  datatype Entry = Fired(id: Id, rule: Rule) | Cleared(id: Id, rule: Rule)

  datatype World = World(
    alerts: map<Id, Alert>,
    last: map<Rule, Stamp>,       // alert:last:<rule>
    locks: map<Rule, Stamp>,      // alert:lock:<rule>
    log: seq<Entry>,              // every fire and every resolve
    evaluated: map<Rule, int>)    // when each rule was last marked as evaluated, expiry or not

  datatype Rules = Rules(windowMinutes: Rule -> nat, lockTtlSeconds: nat)

  const MINUTE := 60_000

  predicate KeyLives(m: map<Rule, Stamp>, rule: Rule, now: int) { rule in m && now < m[rule].expires }

  /** The cadence floor: a full window since the last evaluation the key still remembers. */
  predicate TooSoon(w: World, rules: Rules, rule: Rule, now: int) {
    KeyLives(w.last, rule, now) && now - w.last[rule].at < rules.windowMinutes(rule) * MINUTE
  }

  predicate ShouldEvaluate(w: World, rules: Rules, rule: Rule, now: int) {
    !TooSoon(w, rules, rule, now) && !KeyLives(w.locks, rule, now)
  }

  function LockSeconds(rules: Rules, rule: Rule): nat {
    var own := if rules.windowMinutes(rule) * 60 > 60 then rules.windowMinutes(rule) * 60 else 60;
    if rules.lockTtlSeconds < own then rules.lockTtlSeconds else own
  }

  function Locked(w: World, rules: Rules, rule: Rule, now: int): World {
    w.(locks := w.locks[rule := Stamp(now, now + LockSeconds(rules, rule) * 1000)])
  }

  /** markEvaluated: remember the evaluation for two windows, and drop the lock; the two commands run side by side. */
  function Marked(w: World, rules: Rules, rule: Rule, now: int, stamped: bool, released: bool): World {
    w.(last := if stamped then w.last[rule := Stamp(now, now + rules.windowMinutes(rule) * 2 * MINUTE)] else w.last,
       locks := if released then w.locks - {rule} else w.locks,
       evaluated := if stamped then w.evaluated[rule := now] else w.evaluated)
  }

  /**
   How a rule's turn goes: Redis fails in the gate, having set the lock or not;
   the stored query does not parse; Redis fails in the mark, either command
   having taken effect or not; the evaluator throws; the open alert cannot be
   looked up; or all of that answers, and then the alert's own insert or update
   may fail, and so may what follows it, the dispatch or the audit entry.
   */
  datatype Outcome =
    | NoGate(locked: bool)
    | Malformed
    | Unmarked(stamped: bool, released: bool)
    | Throws
    | Unread
    | Answers(hit: bool, stored: bool, afterOk: bool)

  predicate IsActiveOf(w: World, rule: Rule, id: Id) { id in w.alerts && w.alerts[id].rule == rule && Active(w.alerts[id]) }

  ghost predicate HasActive(w: World, rule: Rule) { exists id: Id :: IsActiveOf(w, rule, id) }

  /** The most recently fired active alert of the rule. */
  ghost predicate IsOpen(w: World, rule: Rule, open: Option<Id>) {
    match open
    case None => !HasActive(w, rule)
    case Some(id) =>
      IsActiveOf(w, rule, id)
      && forall other: Id :: IsActiveOf(w, rule, other) ==> w.alerts[other].firedAt <= w.alerts[id].firedAt
  }

  function Fire(w: World, rule: Rule, id: Id, now: int): World {
    w.(alerts := w.alerts[id := Alert(rule, OPEN, now, None, None, None)], log := w.log + [Fired(id, rule)])
  }

  function Clear(w: World, id: Id, now: int): World
    requires id in w.alerts
  {
    w.(alerts := w.alerts[id := w.alerts[id].(state := RESOLVED, resolvedAt := Some(now))],
       log := w.log + [Cleared(id, w.alerts[id].rule)])
  }

  /** One rule's turn; `open` is what its findFirst returns and `id` the new alert's id. */
  function Turn(w: World, rules: Rules, rule: Rule, now: int, out: Outcome, open: Option<Id>, id: Id): World
    requires open.Some? ==> open.value in w.alerts
  {
    if !ShouldEvaluate(w, rules, rule, now) || (out.NoGate? && !out.locked) then w
    else if out.NoGate? || out.Malformed? then Locked(w, rules, rule, now)
    else if out.Unmarked? then Marked(Locked(w, rules, rule, now), rules, rule, now, out.stamped, out.released)
    else
      var m := Marked(Locked(w, rules, rule, now), rules, rule, now, true, true);
      if !out.Answers? || !out.stored then m
      else if out.hit && open.None? then Fire(m, rule, id, now)
      else if !out.hit && open.Some? then Clear(m, open.value, now)
      else m
  }

  // ---------------------------------------------------------------- the worker

  datatype Summary = Summary(evaluated: nat, fired: nat, resolved: nat, skipped: nat, errors: nat)

  function Tally(s: Summary, w: World, rules: Rules, rule: Rule, now: int, out: Outcome, open: Option<Id>): Summary {
    if out.NoGate? then s.(errors := s.errors + 1)
    else if !ShouldEvaluate(w, rules, rule, now) then s.(skipped := s.skipped + 1)
    else if out.Malformed? || out.Unmarked? || out.Throws? then s.(errors := s.errors + 1)
    else if out.Unread? || (out.hit == open.None? && !(out.stored && out.afterOk)) then
      s.(evaluated := s.evaluated + 1, errors := s.errors + 1)
    else if out.hit && open.None? then s.(evaluated := s.evaluated + 1, fired := s.fired + 1)
    else if !out.hit && open.Some? then s.(evaluated := s.evaluated + 1, resolved := s.resolved + 1)
    else s.(evaluated := s.evaluated + 1)
  }

  class Worker {
    const rules: Rules
    var alerts: map<Id, Alert>
    var last: map<Rule, Stamp>
    var locks: map<Rule, Stamp>
    ghost var log: seq<Entry>
    ghost var evaluated: map<Rule, int>

    constructor (rules: Rules)
      ensures this.rules == rules && Contents() == World(map[], map[], map[], [], map[])
    {
      this.rules, alerts, last, locks, log, evaluated := rules, map[], map[], map[], [], map[];
    }

    ghost function Contents(): World
      reads this
    {
      World(alerts, last, locks, log, evaluated)
    }

    method FindOpen(rule: Rule) returns (open: Option<Id>)
      ensures IsOpen(Contents(), rule, open)
    {
      var ids := alerts.Keys;
      open := None;
      while ids != {}
        invariant ids <= alerts.Keys
        invariant open.Some? ==> IsActiveOf(Contents(), rule, open.value)
        invariant forall id: Id :: id !in ids && IsActiveOf(Contents(), rule, id) ==>
          open.Some? && alerts[id].firedAt <= alerts[open.value].firedAt
        decreases ids
      {
        var id :| id in ids;
        ids := ids - {id};
        if alerts[id].rule == rule && alerts[id].state != RESOLVED
          && (open.None? || alerts[open.value].firedAt <= alerts[id].firedAt) {
          open := Some(id);
        }
      }
    }

    /** The gate; None is the error of a Redis command, of the SET where `locked` says that it took effect. */
    method Acquire(rule: Rule, now: int, fails: bool, locked: bool) returns (ok: Option<bool>)
      modifies this`locks
      ensures ok == if fails then None else Some(ShouldEvaluate(old(Contents()), rules, rule, now))
      ensures Contents() ==
        if (fails ==> locked) && ShouldEvaluate(old(Contents()), rules, rule, now) then
          Locked(old(Contents()), rules, rule, now)
        else old(Contents())
    {
      if fails && !locked {
        return None;
      }
      if rule in last && now < last[rule].expires {
        var ageMs := now - last[rule].at;
        if ageMs < rules.windowMinutes(rule) * MINUTE {
          return if fails then None else Some(false);
        }
      }
      if rule in locks && now < locks[rule].expires {
        return if fails then None else Some(false);
      }
      locks := locks[rule := Stamp(now, now + LockSeconds(rules, rule) * 1000)];
      ok := if fails then None else Some(true);
    }

    /** The mark, as far as its two commands took effect. */
    method MarkEvaluated(rule: Rule, now: int, stamped: bool, released: bool)
      modifies this
      ensures Contents() == Marked(old(Contents()), rules, rule, now, stamped, released)
    {
      if stamped {
        last := last[rule := Stamp(now, now + rules.windowMinutes(rule) * 2 * MINUTE)];
        evaluated := evaluated[rule := now];
      }
      if released {
        locks := locks - {rule};
      }
    }

    /** The body of the cycle's loop. */
    method Evaluate(rule: Rule, now: int, out: Outcome, id: Id, sum: Summary)
      returns (sum': Summary, ghost open: Option<Id>)
      requires id !in alerts
      modifies this
      ensures IsOpen(old(Contents()), rule, open)
      ensures Contents() == Turn(old(Contents()), rules, rule, now, out, open, id)
      ensures sum' == Tally(sum, old(Contents()), rules, rule, now, out, open)
    {
      var found := FindOpen(rule);
      open := found;
      var shouldEval := Acquire(rule, now, out.NoGate?, out.NoGate? && out.locked);
      if shouldEval.None? {
        sum' := sum.(errors := sum.errors + 1);
        return;
      }
      if !shouldEval.value {
        sum' := sum.(skipped := sum.skipped + 1);
        return;
      }
      if out.Malformed? {
        sum' := sum.(errors := sum.errors + 1);
        return;
      }
      MarkEvaluated(rule, now, out.Unmarked? ==> out.stamped, out.Unmarked? ==> out.released);
      if out.Unmarked? {
        sum' := sum.(errors := sum.errors + 1);
        return;
      }
      if out.Throws? {
        sum' := sum.(errors := sum.errors + 1);
        return;
      }
      sum' := sum.(evaluated := sum.evaluated + 1);
      if out.Unread? {
        sum' := sum'.(errors := sum'.errors + 1);
        return;
      }
      if out.hit && found.None? {
        if !out.stored {
          sum' := sum'.(errors := sum'.errors + 1);
          return;
        }
        alerts := alerts[id := Alert(rule, OPEN, now, None, None, None)];
        log := log + [Fired(id, rule)];
        if !out.afterOk {
          sum' := sum'.(errors := sum'.errors + 1);
          return;
        }
        sum' := sum'.(fired := sum'.fired + 1);
      } else if !out.hit && found.Some? {
        if !out.stored {
          sum' := sum'.(errors := sum'.errors + 1);
          return;
        }
        log := log + [Cleared(found.value, alerts[found.value].rule)];
        alerts := alerts[found.value := alerts[found.value].(state := RESOLVED, resolvedAt := Some(now))];
        if !out.afterOk {
          sum' := sum'.(errors := sum'.errors + 1);
          return;
        }
        sum' := sum'.(resolved := sum'.resolved + 1);
      }
    }
  }

  // ---------------------------------------------------------------- runs

  datatype Step =
    | Evaluation(rule: Rule, now: int, out: Outcome, open: Option<Id>, id: Id)
    | Acknowledge(id: Id, now: int)
    | Snooze(id: Id, now: int, minutes: nat)
    | Resolve(id: Id, now: int)

  /** The route's updates, which look at nothing but the id. */
  function Operate(w: World, s: Step): World
    requires !s.Evaluation? && s.id in w.alerts
  {
    match s
    case Acknowledge(id, now) => w.(alerts := w.alerts[id := w.alerts[id].(state := ACKNOWLEDGED, acknowledgedAt := Some(now))])
    case Snooze(id, now, minutes) =>
      w.(alerts := w.alerts[id := w.alerts[id].(state := SNOOZED, snoozedUntil := Some(now + minutes * MINUTE))])
    case Resolve(id, now) => Clear(w, id, now)
  }

  /** Operators act on alerts that are active; one worker evaluates. */
  ghost predicate Enabled(w: World, s: Step) {
    match s
    case Evaluation(rule, now, out, open, id) => IsOpen(w, rule, open) && id !in w.alerts
    case Acknowledge(id, _) => id in w.alerts && Active(w.alerts[id])
    case Snooze(id, _, _) => id in w.alerts && Active(w.alerts[id])
    case Resolve(id, _) => id in w.alerts && Active(w.alerts[id])
  }

  ghost function Apply(w: World, rules: Rules, s: Step): World
    requires Enabled(w, s)
  {
    match s
    case Evaluation(rule, now, out, open, id) => Turn(w, rules, rule, now, out, open, id)
    case _ => Operate(w, s)
  }

  predicate AtMostOneActive(alerts: map<Id, Alert>) {
    forall a: Id, b: Id | a in alerts && b in alerts && Active(alerts[a]) && Active(alerts[b]) ::
      alerts[a].rule == alerts[b].rule ==> a == b
  }

  /** The fires and resolves of one rule, in order. */
  function Of(log: seq<Entry>, rule: Rule): seq<Entry> {
    if log == [] then []
    else
      var n := |log| - 1;
      if log[n].rule == rule then Of(log[..n], rule) + [log[n]] else Of(log[..n], rule)
  }

  /** Fire, resolve, fire, resolve: each resolve clears the alert the fire before it raised. */
  predicate Alternates(entries: seq<Entry>) {
    entries == [] ||
    (var n := |entries| - 1;
     && Alternates(entries[..n])
     && (entries[n].Fired? <==> n % 2 == 0)
     && (n % 2 == 1 ==> entries[n].id == entries[n - 1].id))
  }

  /** The log ends in the fire of the active alert, if there is one. */
  predicate EndsIn(w: World, rule: Rule, entries: seq<Entry>) {
    && (|entries| % 2 == 1 ==> IsActiveOf(w, rule, entries[|entries| - 1].id))
    && (|entries| % 2 == 0 ==> forall id: Id :: id in w.alerts && w.alerts[id].rule == rule ==> !Active(w.alerts[id]))
  }

  /** Each rule's entries alternate and end in its active alert. */
  predicate HistoryOk(w: World, rule: Rule) {
    Alternates(Of(w.log, rule)) && EndsIn(w, rule, Of(w.log, rule))
  }

  ghost predicate Inv(w: World, rules: Rules) {
    && AtMostOneActive(w.alerts)
    && (forall rule :: HistoryOk(w, rule))
    && (forall rule :: rule in w.evaluated ==>
         rule in w.last
         && w.last[rule] == Stamp(w.evaluated[rule], w.evaluated[rule] + rules.windowMinutes(rule) * 2 * MINUTE))
    && w.last.Keys == w.evaluated.Keys
  }

  lemma OfAppend(log: seq<Entry>, e: Entry, rule: Rule)
    ensures Of(log + [e], rule) == if e.rule == rule then Of(log, rule) + [e] else Of(log, rule)
  {
    assert (log + [e])[..|log|] == log;
  }

  lemma NoneActive(w: World, rule: Rule, a: Id)
    requires !HasActive(w, rule) && a in w.alerts && w.alerts[a].rule == rule
    ensures !Active(w.alerts[a])
  {
    assert !IsActiveOf(w, rule, a);
  }

  lemma FireKeepsHistory(w: World, rule: Rule, id: Id, now: int, r: Rule)
    requires HistoryOk(w, r) && id !in w.alerts && !HasActive(w, rule)
    ensures HistoryOk(Fire(w, rule, id, now), r)
  {
    OfAppend(w.log, Fired(id, rule), r);
    hide Of;
    if r == rule && |Of(w.log, r)| % 2 == 1 {
      OddIsActive(w, r);
    }
  }

  lemma OddIsActive(w: World, rule: Rule)
    requires HistoryOk(w, rule) && |Of(w.log, rule)| % 2 == 1
    ensures HasActive(w, rule)
  {
    var entries := Of(w.log, rule);
    assert IsActiveOf(w, rule, entries[|entries| - 1].id);
  }

  lemma FireKeeps(w: World, rules: Rules, rule: Rule, id: Id, now: int)
    requires Inv(w, rules) && id !in w.alerts && !HasActive(w, rule)
    ensures Inv(Fire(w, rule, id, now), rules) && HasActive(Fire(w, rule, id, now), rule)
  {
    FireKeepsOne(w, rule, id, now);
    hide AtMostOneActive, HistoryOk;
    forall r ensures HistoryOk(Fire(w, rule, id, now), r) {
      FireKeepsHistory(w, rule, id, now, r);
    }
    assert IsActiveOf(Fire(w, rule, id, now), rule, id);
  }

  lemma FireKeepsOne(w: World, rule: Rule, id: Id, now: int)
    requires AtMostOneActive(w.alerts) && id !in w.alerts && !HasActive(w, rule)
    ensures AtMostOneActive(Fire(w, rule, id, now).alerts)
  {
    var after := Fire(w, rule, id, now).alerts;
    forall a: Id, b: Id | a in after && b in after && Active(after[a]) && Active(after[b]) && after[a].rule == after[b].rule
      ensures a == b
    {
      if a in w.alerts && after[a].rule == rule { NoneActive(w, rule, a); }
      if b in w.alerts && after[b].rule == rule { NoneActive(w, rule, b); }
    }
  }

  lemma ClearKeepsHistory(w: World, id: Id, now: int, r: Rule)
    requires HistoryOk(w, r) && AtMostOneActive(w.alerts) && id in w.alerts && Active(w.alerts[id])
    ensures HistoryOk(Clear(w, id, now), r)
  {
    OfAppend(w.log, Cleared(id, w.alerts[id].rule), r);
    hide Of;
  }

  lemma ClearKeeps(w: World, rules: Rules, id: Id, now: int)
    requires Inv(w, rules) && id in w.alerts && Active(w.alerts[id])
    ensures Inv(Clear(w, id, now), rules) && !HasActive(Clear(w, id, now), w.alerts[id].rule)
  {
    hide HistoryOk;
    forall r ensures HistoryOk(Clear(w, id, now), r) {
      ClearKeepsHistory(w, id, now, r);
    }
  }

  lemma StepKeeps(w: World, rules: Rules, s: Step)
    requires Inv(w, rules) && Enabled(w, s)
    ensures Inv(Apply(w, rules, s), rules)
  {
    match s
    case Evaluation(rule, now, out, open, id) => EvaluationSettles(w, rules, s);
    case Resolve(id, now) => ClearKeeps(w, rules, id, now);
    case _ =>
      var w' := Apply(w, rules, s);
      forall r ensures HistoryOk(w', r) {
        assert HistoryOk(w, r);
      }
  }

  /** The gate's lock and the mark change nothing about alerts. */
  lemma MarkKeeps(w: World, rules: Rules, rule: Rule, now: int, stamped: bool, released: bool)
    requires Inv(w, rules)
    ensures var w' := Marked(Locked(w, rules, rule, now), rules, rule, now, stamped, released);
      Inv(w', rules) && (HasActive(w', rule) <==> HasActive(w, rule))
  {
    var w' := Marked(Locked(w, rules, rule, now), rules, rule, now, stamped, released);
    forall r ensures HistoryOk(w', r) {
      assert HistoryOk(w, r);
    }
    if HasActive(w, rule) {
      var id: Id :| IsActiveOf(w, rule, id);
      assert IsActiveOf(w', rule, id);
    }
    if HasActive(w', rule) {
      var id: Id :| IsActiveOf(w', rule, id);
      assert IsActiveOf(w, rule, id);
    }
  }

  /**
   An evaluation that answers leaves an active alert exactly when the rule hit,
   if and only if its alert could be stored or need not be; and the gate opens
   no sooner than a window after the rule was last marked, however the clock runs.
   */
  lemma EvaluationSettles(w: World, rules: Rules, s: Step)
    requires Inv(w, rules) && Enabled(w, s) && s.Evaluation?
    ensures Inv(Apply(w, rules, s), rules)
    ensures ShouldEvaluate(w, rules, s.rule, s.now) && s.out.Answers? ==>
      ((HasActive(Apply(w, rules, s), s.rule) <==> s.out.hit) <==> s.out.stored || (HasActive(w, s.rule) <==> s.out.hit))
    ensures ShouldEvaluate(w, rules, s.rule, s.now) && s.rule in w.evaluated ==>
      s.now - w.evaluated[s.rule] >= rules.windowMinutes(s.rule) * MINUTE
  {
    hide HistoryOk, AtMostOneActive;
    if !ShouldEvaluate(w, rules, s.rule, s.now) {
    } else if s.out.NoGate? || s.out.Malformed? {
      LockKeeps(w, rules, s.rule, s.now);
    } else if s.out.Unmarked? {
      MarkKeeps(w, rules, s.rule, s.now, s.out.stamped, s.out.released);
    } else {
      var m := Marked(Locked(w, rules, s.rule, s.now), rules, s.rule, s.now, true, true);
      MarkKeeps(w, rules, s.rule, s.now, true, true);
      if s.out.Answers? && s.out.stored {
        if s.out.hit && s.open.None? {
          FireKeeps(m, rules, s.rule, s.id, s.now);
        } else if !s.out.hit && s.open.Some? {
          ClearKeeps(m, rules, s.open.value, s.now);
        }
      }
    }
  }

  lemma LockKeeps(w: World, rules: Rules, rule: Rule, now: int)
    requires Inv(w, rules)
    ensures Inv(Locked(w, rules, rule, now), rules)
  {
    var w' := Locked(w, rules, rule, now);
    forall r ensures HistoryOk(w', r) {
      assert HistoryOk(w, r);
    }
  }

  /**
   The gate opens exactly when a full window has passed since the rule was last
   marked, and nobody holds its lock; that the mark expires after two windows
   makes no difference.
   */
  lemma WhenTheGateOpens(w: World, rules: Rules, rule: Rule, now: int)
    requires Inv(w, rules)
    ensures ShouldEvaluate(w, rules, rule, now) <==>
      && (rule in w.evaluated ==> now - w.evaluated[rule] >= rules.windowMinutes(rule) * 60_000)
      && (rule in w.locks ==> w.locks[rule].expires <= now)
  {
    hide HistoryOk, AtMostOneActive;
    if rule in w.evaluated {
      assert w.last[rule] == Stamp(w.evaluated[rule], w.evaluated[rule] + rules.windowMinutes(rule) * 2 * MINUTE);
      TwoWindows(rules.windowMinutes(rule));
    }
  }

  lemma TwoWindows(minutes: nat)
    ensures minutes * MINUTE <= minutes * 2 * MINUTE
  {
  }

  /**
   A lock that was taken and left bars every other evaluation of the rule, from
   the same instant on and for the rule's window in seconds, at least a minute
   and at most the configured time; and it ends then.
   */
  lemma LocksHoldAndExpire(w: World, rules: Rules, rule: Rule, now: int, t: int)
    requires Inv(w, rules) && ShouldEvaluate(w, rules, rule, now) && now <= t
    ensures var seconds := LockSeconds(rules, rule);
      && seconds <= rules.lockTtlSeconds
      && (60 <= rules.lockTtlSeconds ==> 60 <= seconds)
      && (60 <= rules.windowMinutes(rule) * 60 <= rules.lockTtlSeconds ==> seconds == rules.windowMinutes(rule) * 60)
      && (rules.lockTtlSeconds <= rules.windowMinutes(rule) * 60 || rules.lockTtlSeconds <= 60 ==> seconds == rules.lockTtlSeconds)
      && (ShouldEvaluate(Locked(w, rules, rule, now), rules, rule, t) <==> t >= now + seconds * 1_000)
      && (forall other: Rule :: other != rule ==>
           (ShouldEvaluate(Locked(w, rules, rule, now), rules, other, t) <==> ShouldEvaluate(w, rules, other, t)))
  {
    LockKeeps(w, rules, rule, now);
    WhenTheGateOpens(Locked(w, rules, rule, now), rules, rule, t);
    WhenTheGateOpens(w, rules, rule, now);
    hide Inv, ShouldEvaluate;
    forall other: Rule | other != rule
      ensures ShouldEvaluate(Locked(w, rules, rule, now), rules, other, t) <==> ShouldEvaluate(w, rules, other, t)
    {
      WhenTheGateOpens(Locked(w, rules, rule, now), rules, other, t);
      WhenTheGateOpens(w, rules, other, t);
    }
  }

  /**
   When the rule is next evaluated after a turn whose gate had opened: a window
   later if it was marked, and not before the lock ends if it was kept.
   */
  lemma WhenTheGateOpensNext(w: World, rules: Rules, s: Step, t: int)
    requires Inv(w, rules) && Enabled(w, s) && s.Evaluation? && ShouldEvaluate(w, rules, s.rule, s.now) && s.now <= t
    ensures var out := s.out;
      var marked := if out.Unmarked? then out.stamped else !out.NoGate? && !out.Malformed?;
      var kept := if out.Unmarked? then !out.released else if out.NoGate? then out.locked else out.Malformed?;
      ShouldEvaluate(Apply(w, rules, s), rules, s.rule, t) <==>
        && (marked ==> t - s.now >= rules.windowMinutes(s.rule) * 60_000)
        && (kept ==> t - s.now >= LockSeconds(rules, s.rule) * 1_000)
  {
    EvaluationSettles(w, rules, s);
    WhenTheGateOpens(w, rules, s.rule, s.now);
    WhenTheGateOpens(Apply(w, rules, s), rules, s.rule, t);
    hide Inv, Enabled, ShouldEvaluate, LockSeconds;
  }

  /**
   What the cycle's summary counts: fires and resolves that went through, as
   they stand in the log; gates that were closed; evaluations; and a failure
   wherever one was met.
   */
  lemma SummaryTells(w: World, rules: Rules, s: Step, sum: Summary)
    requires Enabled(w, s) && s.Evaluation?
    ensures var after, sum' := Apply(w, rules, s).log, Tally(sum, w, rules, s.rule, s.now, s.out, s.open);
      var n, out := |w.log|, s.out;
      var opens := ShouldEvaluate(w, rules, s.rule, s.now) && !out.NoGate?;
      var changes := out.Answers? && (out.hit <==> !HasActive(w, s.rule));
      && w.log <= after && |after| <= n + 1
      && (|after| == n + 1 <==> opens && changes && out.stored)
      && (|after| == n + 1 ==> after[n].rule == s.rule && (after[n].Fired? <==> out.hit))
      && sum'.fired == sum.fired + (if |after| == n + 1 && after[n].Fired? && out.afterOk then 1 else 0)
      && sum'.resolved == sum.resolved + (if |after| == n + 1 && after[n].Cleared? && out.afterOk then 1 else 0)
      && sum'.skipped == sum.skipped + (if !opens && !out.NoGate? then 1 else 0)
      && sum'.evaluated == sum.evaluated + (if opens && (out.Unread? || out.Answers?) then 1 else 0)
      && sum'.errors == sum.errors +
           (if out.NoGate? || (opens && !out.Answers?) || (opens && changes && !(out.stored && out.afterOk)) then 1 else 0)
  {
    hide ShouldEvaluate;
    if s.open.Some? {
      assert IsActiveOf(w, s.rule, s.open.value);
    }
  }

  ghost predicate Legal(w: World, rules: Rules, run: seq<Step>)
    decreases |run|
  {
    run == [] || (Enabled(w, run[0]) && Legal(Apply(w, rules, run[0]), rules, run[1..]))
  }

  ghost function Run(w: World, rules: Rules, run: seq<Step>): World
    requires Legal(w, rules, run)
    decreases |run|
  {
    if run == [] then w else Run(Apply(w, rules, run[0]), rules, run[1..])
  }

  lemma {:induction false} RunKeeps(w: World, rules: Rules, run: seq<Step>)
    requires Inv(w, rules) && Legal(w, rules, run)
    ensures Inv(Run(w, rules, run), rules)
    decreases |run|
  {
    if run != [] {
      StepKeeps(w, rules, run[0]);
      RunKeeps(Apply(w, rules, run[0]), rules, run[1..]);
    }
  }

  /** Over every run: never two active alerts of one rule, and its history strictly alternates fire and resolve. */
  lemma AlertsAlternate(rules: Rules, run: seq<Step>, rule: Rule)
    requires Legal(World(map[], map[], map[], [], map[]), rules, run)
    ensures var w := Run(World(map[], map[], map[], [], map[]), rules, run);
      && AtMostOneActive(w.alerts)
      && Alternates(Of(w.log, rule))
      && (HasActive(w, rule) <==> |Of(w.log, rule)| % 2 == 1)
  {
    var w0 := World(map[], map[], map[], [], map[]);
    RunKeeps(w0, rules, run);
    var w := Run(w0, rules, run);
    assert HistoryOk(w, rule);
  }

  /** The last mark of a rule only moves on. */
  lemma EvaluatedMovesOn(w: World, rules: Rules, s: Step, rule: Rule)
    requires Inv(w, rules) && Enabled(w, s) && rule in w.evaluated
    ensures rule in Apply(w, rules, s).evaluated && Apply(w, rules, s).evaluated[rule] >= w.evaluated[rule]
  {
    OnlyTurnsMark(w, rules, s);
    hide Inv, Apply, Enabled, ShouldEvaluate;
    if s.Evaluation? && s.rule == rule && ShouldEvaluate(w, rules, rule, s.now) {
      NotTooSoon(w, rules, rule, s.now);
    }
  }

  lemma OnlyTurnsMark(w: World, rules: Rules, s: Step)
    requires Enabled(w, s)
    ensures var after := Apply(w, rules, s).evaluated;
      || after == w.evaluated
      || (s.Evaluation? && ShouldEvaluate(w, rules, s.rule, s.now) && after == w.evaluated[s.rule := s.now])
  {
    hide ShouldEvaluate, LockSeconds, HasActive;
  }

  lemma NotTooSoon(w: World, rules: Rules, rule: Rule, now: int)
    requires Inv(w, rules) && rule in w.evaluated && ShouldEvaluate(w, rules, rule, now)
    ensures now - w.evaluated[rule] >= rules.windowMinutes(rule) * MINUTE
  {
    hide HistoryOk, AtMostOneActive;
    assert w.last[rule] == Stamp(w.evaluated[rule], w.evaluated[rule] + rules.windowMinutes(rule) * 2 * MINUTE);
  }

  /** However much happens after a rule was marked, as it is before every evaluation, its next evaluation is a full window later. */
  lemma {:induction false} EvaluationsAreAWindowApart(w: World, rules: Rules, run: seq<Step>, s: Step)
    requires Inv(w, rules) && Legal(w, rules, run) && s.Evaluation? && s.rule in w.evaluated
    requires ShouldEvaluate(Run(w, rules, run), rules, s.rule, s.now)
    ensures s.now - w.evaluated[s.rule] >= rules.windowMinutes(s.rule) * MINUTE
    decreases |run|
  {
    if run == [] {
      NotTooSoon(w, rules, s.rule, s.now);
    } else {
      EvaluatedMovesOn(w, rules, run[0], s.rule);
      StepKeeps(w, rules, run[0]);
      hide Inv, Apply, Enabled, ShouldEvaluate;
      EvaluationsAreAWindowApart(Apply(w, rules, run[0]), rules, run[1..], s);
    }
  }

  /** What an operator's request sets, and that it sets nothing else. */
  lemma OperatorsSetOneAlert(w: World, s: Step, other: Id)
    requires !s.Evaluation? && s.id in w.alerts
    ensures var before, after := w.alerts[s.id], Operate(w, s);
      && after.alerts.Keys == w.alerts.Keys && after.last == w.last && after.locks == w.locks && after.evaluated == w.evaluated
      && (other in w.alerts && other != s.id ==> after.alerts[other] == w.alerts[other])
      && after.alerts[s.id].rule == before.rule && after.alerts[s.id].firedAt == before.firedAt
      && (s.Acknowledge? ==>
           && after.log == w.log
           && after.alerts[s.id] == before.(state := ACKNOWLEDGED, acknowledgedAt := Some(s.now)))
      && (s.Snooze? ==>
           && after.log == w.log
           && after.alerts[s.id] == before.(state := SNOOZED, snoozedUntil := Some(s.now + s.minutes * 60_000)))
      && (s.Resolve? ==>
           && after.log == w.log + [Cleared(s.id, before.rule)]
           && after.alerts[s.id] == before.(state := RESOLVED, resolvedAt := Some(s.now)))
  {
  }

  /**
   Why operators are kept to active alerts: the routes do not look at the
   state, and acknowledging or snoozing a resolved alert reopens it.  The
   at-most-one rule survives such a request exactly when the alert was active
   or its rule has no active alert.
   */
  lemma WhenAnOperatorMayReopen(w: World, s: Step)
    requires AtMostOneActive(w.alerts) && (s.Acknowledge? || s.Snooze?) && s.id in w.alerts
    ensures AtMostOneActive(Operate(w, s).alerts) <==>
      Active(w.alerts[s.id]) || !HasActive(w, w.alerts[s.id].rule)
  {
    var after := Operate(w, s).alerts;
    if !Active(w.alerts[s.id]) && HasActive(w, w.alerts[s.id].rule) {
      var other: Id :| IsActiveOf(w, w.alerts[s.id].rule, other);
      assert Active(after[other]) && Active(after[s.id]);
    } else if !Active(w.alerts[s.id]) {
      forall id | id in after && id != s.id && after[id].rule == after[s.id].rule ensures !Active(after[id]) {
        assert !IsActiveOf(w, w.alerts[s.id].rule, id);
      }
    }
  }

  /** One rule, evaluated once a minute. */
  function Minutely(): Rules { Rules(_ => 1, 300) }

  function Nothing(): World { World(map[], map[], map[], [], map[]) }

  /** A rule that hits, cools off and hits again; its first alert is resolved, its second open. */
  function HitCoolHit(): seq<Step> {
    [Evaluation(0, 0, Answers(true, true, true), None, 0),
     Evaluation(0, MINUTE, Answers(false, true, true), Some(0), 1),
     Evaluation(0, 2 * MINUTE, Answers(true, true, true), None, 1)]
  }

  function AfterHit(): World {
    World(map[0 := Alert(0, OPEN, 0, None, None, None)], map[0 := Stamp(0, 2 * MINUTE)], map[], [Fired(0, 0)], map[0 := 0])
  }

  function AfterHitCool(): World {
    World(map[0 := Alert(0, RESOLVED, 0, None, None, Some(MINUTE))], map[0 := Stamp(MINUTE, 3 * MINUTE)], map[],
          [Fired(0, 0), Cleared(0, 0)], map[0 := MINUTE])
  }

  function AfterHitCoolHit(): World {
    World(map[0 := Alert(0, RESOLVED, 0, None, None, Some(MINUTE)), 1 := Alert(0, OPEN, 2 * MINUTE, None, None, None)],
          map[0 := Stamp(2 * MINUTE, 4 * MINUTE)], map[],
          [Fired(0, 0), Cleared(0, 0), Fired(1, 0)], map[0 := 2 * MINUTE])
  }

  lemma FirstHit()
    ensures Enabled(Nothing(), HitCoolHit()[0]) && Apply(Nothing(), Minutely(), HitCoolHit()[0]) == AfterHit()
  {
  }

  lemma ThenCool()
    ensures Enabled(AfterHit(), HitCoolHit()[1]) && Apply(AfterHit(), Minutely(), HitCoolHit()[1]) == AfterHitCool()
  {
  }

  lemma ThenHit()
    ensures Enabled(AfterHitCool(), HitCoolHit()[2]) && Apply(AfterHitCool(), Minutely(), HitCoolHit()[2]) == AfterHitCoolHit()
  {
  }

  lemma HitCoolHitRuns()
    ensures Legal(Nothing(), Minutely(), HitCoolHit())
    ensures Run(Nothing(), Minutely(), HitCoolHit()) == AfterHitCoolHit()
  {
    var rules, run := Minutely(), HitCoolHit();
    FirstHit();
    ThenCool();
    ThenHit();
    hide Apply, Enabled, AfterHit, AfterHitCool, AfterHitCoolHit, Nothing, Minutely;
    assert run[1..][1..] == [run[2]] && run[1..][1..][1..] == [];
    assert Legal(AfterHitCool(), rules, [run[2]]) && Run(AfterHitCool(), rules, [run[2]]) == AfterHitCoolHit();
    assert Legal(AfterHit(), rules, run[1..]) && Run(AfterHit(), rules, run[1..]) == AfterHitCoolHit();
  }

  /** A state the worker really reaches, from which acknowledging the resolved alert leaves the rule with two active ones. */
  lemma AcknowledgingCanReopen(now: int)
    ensures Legal(Nothing(), Minutely(), HitCoolHit())
    ensures var w := Run(Nothing(), Minutely(), HitCoolHit());
      && AtMostOneActive(w.alerts) && 0 in w.alerts && !Active(w.alerts[0])
      && !AtMostOneActive(Operate(w, Acknowledge(0, now)).alerts)
  {
    HitCoolHitRuns();
    var after := Operate(AfterHitCoolHit(), Acknowledge(0, now)).alerts;
    assert Active(after[0]) && Active(after[1]) && after[0].rule == after[1].rule;
  }
}
