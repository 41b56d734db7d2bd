/**
 Idempotent ingestion (apps/api/src/domains/ingestion/ingestion.routes.ts):
 create-or-find on the unique (org, source, idempotency key), then the
 processor; concurrent requests one database operation at a time; and the bulk
 loop with the keys it derives.
 */
module Ingestion {
  import opened Wrappers

  type EventId = nat
  type Request = nat

  datatype Key = Key(org: nat, source: nat, idempotency: string)

  // ---------------------------------------------------------------- concurrent requests

  /** Where a request stands between two of its awaits. */
  datatype Phase =
    | Arrived
    | Collided               // the insert met the unique index
    | Created(ev: EventId)   // the insert succeeded, the processor has not started
    | Running(ev: EventId)   // inside the processor
    | Answered(ev: EventId, replayed: bool)
    | Rejected               // the processor threw, and so did the request
    | Crashed

  datatype State = State(
    events: map<Key, EventId>,
    keys: map<Request, Key>,
    phases: map<Request, Phase>,
    runs: seq<EventId>,          // every start of the processor
    owner: map<Key, Request>)    // whose insert succeeded

  datatype Step =
    | Arrive(r: Request, key: Key)
    | Insert(r: Request, ev: EventId)
    | Find(r: Request)
    | Process(r: Request)
    | Finish(r: Request, ok: bool)
    | Crash(r: Request)

  predicate In(s: State, r: Request) { r in s.phases && r in s.keys }

  predicate Enabled(s: State, step: Step) {
    match step
    case Arrive(r, _) => r !in s.phases && r !in s.keys
    case Insert(r, ev) => In(s, r) && s.phases[r].Arrived? && ev !in s.events.Values && ev !in s.runs
    case Find(r) => In(s, r) && s.phases[r].Collided?
    case Process(r) => In(s, r) && s.phases[r].Created?
    case Finish(r, _) => In(s, r) && s.phases[r].Running?
    case Crash(r) => In(s, r) && !s.phases[r].Answered? && !s.phases[r].Rejected?
  }

  function Apply(s: State, step: Step): State
    requires Enabled(s, step)
  {
    match step
    case Arrive(r, key) => s.(keys := s.keys[r := key], phases := s.phases[r := Arrived])
    case Insert(r, ev) =>
      var key := s.keys[r];
      if key in s.events then s.(phases := s.phases[r := Collided])
      else s.(events := s.events[key := ev], phases := s.phases[r := Created(ev)], owner := s.owner[key := r])
    case Find(r) =>
      var key := s.keys[r];
      s.(phases := s.phases[r := if key in s.events then Answered(s.events[key], true) else Rejected])
    case Process(r) =>
      var ev := s.phases[r].ev;
      s.(phases := s.phases[r := Running(ev)], runs := s.runs + [ev])
    case Finish(r, ok) =>
      s.(phases := s.phases[r := if ok then Answered(s.phases[r].ev, false) else Rejected])
    case Crash(r) => s.(phases := s.phases[r := Crashed])
  }

  predicate DistinctRuns(runs: seq<EventId>) { forall i, j :: 0 <= i < j < |runs| ==> runs[i] != runs[j] }

  predicate OneIdPerKey(events: map<Key, EventId>) {
    forall k, l :: k in events && l in events && events[k] == events[l] ==> k == l
  }

  /** What a request's phase says about the table and the processor. */
  predicate PhaseOk(s: State, r: Request)
    requires In(s, r)
  {
    var key := s.keys[r];
    var owns := key in s.events && key in s.owner && s.owner[key] == r;
    match s.phases[r]
    case Arrived => !owns
    case Collided => key in s.events && !owns
    case Created(ev) => owns && s.events[key] == ev && ev !in s.runs
    case Running(ev) => owns && s.events[key] == ev && ev in s.runs
    case Answered(ev, replayed) => key in s.events && s.events[key] == ev && (owns <==> !replayed) && (owns ==> ev in s.runs)
    case Rejected => owns ==> s.events[key] in s.runs
    case Crashed => true
  }

  predicate Inv(s: State) {
    && OneIdPerKey(s.events) && DistinctRuns(s.runs)
    && (forall ev :: ev in s.runs ==> ev in s.events.Values)
    && s.owner.Keys == s.events.Keys && s.keys.Keys == s.phases.Keys
    && (forall key :: key in s.owner ==> s.owner[key] in s.keys && s.keys[s.owner[key]] == key)
    && (forall r :: r in s.phases ==> PhaseOk(s, r))
  }

  lemma NewEvent(events: map<Key, EventId>, key: Key, ev: EventId)
    requires OneIdPerKey(events) && key !in events && ev !in events.Values
    ensures OneIdPerKey(events[key := ev])
    ensures forall e :: e in events.Values ==> e in events[key := ev].Values
    ensures forall k :: k in events ==> events[k] != ev
  {
    assert forall k :: k in events ==> events[k] in events.Values;
    forall e | e in events.Values ensures e in events[key := ev].Values {
      var k :| k in events && events[k] == e;
      assert events[key := ev][k] == e;
    }
  }

  lemma InsertKeeps(s: State, r: Request, ev: EventId)
    requires Inv(s) && Enabled(s, Insert(r, ev))
    ensures Inv(Apply(s, Insert(r, ev)))
  {
    var s' := Apply(s, Insert(r, ev));
    if s.keys[r] in s.events {
      hide OneIdPerKey, DistinctRuns;
      forall q | q in s'.phases ensures PhaseOk(s', q) {
        assert PhaseOk(s, q);
      }
    } else {
      NewEvent(s.events, s.keys[r], ev);
      hide OneIdPerKey, DistinctRuns;
      forall q | q in s'.phases ensures PhaseOk(s', q) {
        PhaseSurvivesInsert(s, r, ev, q);
      }
    }
  }

  lemma PhaseSurvivesInsert(s: State, r: Request, ev: EventId, q: Request)
    requires Inv(s) && Enabled(s, Insert(r, ev)) && s.keys[r] !in s.events && q in s.phases
    ensures PhaseOk(Apply(s, Insert(r, ev)), q)
  {
    hide OneIdPerKey, DistinctRuns;
    assert PhaseOk(s, q);
  }

  lemma ProcessKeeps(s: State, r: Request)
    requires Inv(s) && Enabled(s, Process(r))
    ensures Inv(Apply(s, Process(r)))
  {
    var s' := Apply(s, Process(r));
    assert PhaseOk(s, r);
    var key, ev := s.keys[r], s.phases[r].ev;
    assert s.events[key] == ev;
    forall q | q in s.phases && q != r ensures PhaseOk(s', q) {
      assert PhaseOk(s, q);
    }
  }

  lemma StepKeeps(s: State, step: Step)
    requires Inv(s) && Enabled(s, step)
    ensures Inv(Apply(s, step))
  {
    match step
    case Insert(r, ev) => InsertKeeps(s, r, ev);
    case Process(r) => ProcessKeeps(s, r);
    case _ =>
      var s' := Apply(s, step);
      forall q | q in s'.phases ensures PhaseOk(s', q) {
        if q in s.phases {
          assert PhaseOk(s, q);
        }
      }
  }

  ghost predicate Legal(s: State, run: seq<Step>)
    decreases |run|
  {
    run == [] || (Enabled(s, run[0]) && Legal(Apply(s, run[0]), run[1..]))
  }

  ghost function Run(s: State, run: seq<Step>): State
    requires Legal(s, run)
    decreases |run|
  {
    if run == [] then s else Run(Apply(s, run[0]), run[1..])
  }

  lemma {:induction false} RunKeeps(s: State, run: seq<Step>)
    requires Inv(s) && Legal(s, run)
    ensures Inv(Run(s, run))
    decreases |run|
  {
    if run != [] {
      StepKeeps(s, run[0]);
      RunKeeps(Apply(s, run[0]), run[1..]);
    }
  }

  function Init(): State { State(map[], map[], map[], [], map[]) }

  lemma RunOf(s: State, step: Step, rest: seq<Step>)
    requires Enabled(s, step) && Legal(Apply(s, step), rest)
    ensures Legal(s, [step] + rest) && Run(s, [step] + rest) == Run(Apply(s, step), rest)
  {
    assert ([step] + rest)[1..] == rest;
  }

  /**
   What a request comes to when it runs to its end: where its key has an event,
   it is answered with that one, as a replay, and nothing is stored or started;
   otherwise with the event it inserts, started once, or with the processor's error.
   */
  lemma RequestsAreAnswered(s: State, r: Request, ev: EventId, ok: bool)
    requires Inv(s) && In(s, r) && s.phases[r].Arrived? && ev !in s.events.Values && ev !in s.runs
    ensures s.keys[r] in s.events ==>
      var run := [Insert(r, ev)] + ([Find(r)] + []);
      && Legal(s, run)
      && Run(s, run) == s.(phases := s.phases[r := Answered(s.events[s.keys[r]], true)])
    ensures s.keys[r] !in s.events ==>
      var run := [Insert(r, ev)] + ([Process(r)] + ([Finish(r, ok)] + []));
      && Legal(s, run)
      && Run(s, run) == State(s.events[s.keys[r] := ev], s.keys, s.phases[r := if ok then Answered(ev, false) else Rejected],
                              s.runs + [ev], s.owner[s.keys[r] := r])
  {
    hide Inv;
    var one := Apply(s, Insert(r, ev));
    if s.keys[r] in s.events {
      var two := Apply(one, Find(r));
      RunOf(one, Find(r), []);
      RunOf(s, Insert(r, ev), [Find(r)] + []);
    } else {
      var two := Apply(one, Process(r));
      var three := Apply(two, Finish(r, ok));
      RunOf(two, Finish(r, ok), []);
      RunOf(one, Process(r), [Finish(r, ok)] + []);
      RunOf(s, Insert(r, ev), [Process(r)] + ([Finish(r, ok)] + []));
    }
  }

  /** A step is about one request: the others stand where they stood; and a crash ends a request without an answer. */
  lemma StepsConcernOneRequest(s: State, step: Step, other: Request)
    requires Enabled(s, step)
    ensures other != step.r && other in s.phases ==>
      other in Apply(s, step).phases && Apply(s, step).phases[other] == s.phases[other]
    ensures step.Crash? ==> Apply(s, step) == s.(phases := s.phases[step.r := Crashed])
  {
  }

  /**
   Whatever has been answered by then: in every reachable state each event has
   one key, and the processor has been started at most once for it, and only
   for events that are stored.
   */
  lemma OneStartPerEvent(run: seq<Step>)
    requires Legal(Init(), run)
    ensures var s := Run(Init(), run);
      && OneIdPerKey(s.events) && DistinctRuns(s.runs)
      && forall ev :: ev in s.runs ==> ev in s.events.Values
  {
    RunKeeps(Init(), run);
  }

  /**
   Exactly once, in every interleaving: all answers for a key name the one
   event; one request owns it and only the owner is answered as new; the
   processor has been started for it at most once, and exactly once unless the
   owner has yet to start it or crashed.
   */
  lemma IngestionIsExactlyOnce(run: seq<Step>, a: Request, b: Request)
    requires Legal(Init(), run)
    requires var s := Run(Init(), run); In(s, a) && In(s, b) && s.keys[a] == s.keys[b] && s.phases[a].Answered?
    ensures var s := Run(Init(), run);
      var key := s.keys[a];
      && key in s.events && key in s.owner && s.owner[key] in s.phases
      && s.phases[a].ev == s.events[key]
      && (s.phases[b].Answered? ==> s.phases[b].ev == s.phases[a].ev)
      && (s.phases[b].Answered? && a != b ==> s.phases[a].replayed || s.phases[b].replayed)
      && (s.phases[a].replayed <==> s.owner[key] != a)
      && DistinctRuns(s.runs)
      && (!s.phases[s.owner[key]].Created? && !s.phases[s.owner[key]].Crashed? ==> s.events[key] in s.runs)
  {
    RunKeeps(Init(), run);
    var s := Run(Init(), run);
    assert PhaseOk(s, a) && PhaseOk(s, b);
    assert PhaseOk(s, s.owner[s.keys[a]]);
  }

  // ---------------------------------------------------------------- derived keys

  /** The ids a bulk row may carry, in the order the route prefers them. */
  type Row = seq<Option<string>>

  function Digit(d: nat): char
    requires d < 10
  {
    "0123456789"[d]
  }

  function Decimal(n: nat): (s: string)
    ensures |s| > 0 && '-' !in s
    ensures |s| == 1 <==> n < 10
  {
    if n < 10 then [Digit(n)] else Decimal(n / 10) + [Digit(n % 10)]
  }

  function OwnId(row: Row): Option<string> {
    if row == [] then None else if row[0].Some? then row[0] else OwnId(row[1..])
  }

  /** The row's own id, or the batch key with the row's position. */
  function DerivedKey(batchKey: string, row: Row, index: nat): string {
    if OwnId(row).Some? then OwnId(row).value else batchKey + "-" + Decimal(index)
  }

  lemma {:induction false} DecimalIsInjective(m: nat, n: nat)
    requires Decimal(m) == Decimal(n)
    ensures m == n
  {
    var a, b := Decimal(m), Decimal(n);
    assert a[|a| - 1] == Digit(m % 10) && b[|b| - 1] == Digit(n % 10);
    if m >= 10 && n >= 10 {
      assert a[..|a| - 1] == Decimal(m / 10) && b[..|b| - 1] == Decimal(n / 10);
      DecimalIsInjective(m / 10, n / 10);
    }
  }

  lemma DashTellsTheLength(a: string, b: string, d: string, e: string)
    requires '-' !in e && |d| < |e|
    ensures a + "-" + d != b + "-" + e
  {
    var s, t := a + "-" + d, b + "-" + e;
    if |s| == |t| {
      var k := |s| - |d| - 1;
      assert s[k] == '-' && t[k] == e[|e| - |d| - 1];
    }
  }

  /** Positional keys never collide, within a batch or across batches, whatever the batch keys are. */
  lemma PositionalKeysAreUnique(batchA: string, batchB: string, i: nat, j: nat)
    ensures batchA + "-" + Decimal(i) == batchB + "-" + Decimal(j) <==> batchA == batchB && i == j
  {
    var a, b := batchA + "-" + Decimal(i), batchB + "-" + Decimal(j);
    var m, n := |Decimal(i)|, |Decimal(j)|;
    if m < n {
      DashTellsTheLength(batchA, batchB, Decimal(i), Decimal(j));
    } else if n < m {
      DashTellsTheLength(batchB, batchA, Decimal(j), Decimal(i));
    } else if a == b {
      assert a[|a| - m..] == Decimal(i) && b[|b| - n..] == Decimal(j);
      assert a[..|a| - m - 1] == batchA && b[..|b| - n - 1] == batchB;
      DecimalIsInjective(i, j);
    }
  }

  // ---------------------------------------------------------------- the bulk call

  /** The event table and the processor's starts, as one call after another finds them. */
  datatype Db = Db(events: map<Key, EventId>, runs: seq<EventId>)

  datatype Answer = Fresh(id: EventId) | Replay(id: EventId) | Threw

  function Ingest(db: Db, key: Key, ev: EventId, ok: bool): (Db, Answer) {
    if key in db.events then (db, Replay(db.events[key]))
    else (Db(db.events[key := ev], db.runs + [ev]), if ok then Fresh(ev) else Threw)
  }

  /** Why a row stops the call: the schema, or the processor. */
  datatype RowEnv = RowEnv(valid: bool, ok: bool, ev: EventId)

  datatype Call = Call(org: nat, source: nat, batchKey: string, rows: seq<Row>)

  function KeyAt(c: Call, i: nat): Key
    requires i < |c.rows|
  {
    Key(c.org, c.source, DerivedKey(c.batchKey, c.rows[i], i))
  }

  predicate NoIds(row: Row) { forall i :: 0 <= i < |row| ==> row[i].None? }

  lemma {:induction false} FirstIdWins(row: Row, k: nat)
    requires k < |row| && row[k].Some? && forall l :: 0 <= l < k ==> row[l].None?
    ensures OwnId(row) == row[k]
  {
    if k > 0 {
      FirstIdWins(row[1..], k - 1);
    }
  }

  lemma {:induction false} NoIdsMeansNone(row: Row)
    requires NoIds(row)
    ensures OwnId(row).None?
  {
    if row != [] {
      NoIdsMeansNone(row[1..]);
    }
  }

  /** A row is stored under the first id it carries, in the caller's org and under the target's source. */
  lemma KeyOfARowWithIds(c: Call, i: nat, k: nat)
    requires i < |c.rows| && k < |c.rows[i]| && c.rows[i][k].Some? && forall l :: 0 <= l < k ==> c.rows[i][l].None?
    ensures KeyAt(c, i) == Key(c.org, c.source, c.rows[i][k].value)
  {
    FirstIdWins(c.rows[i], k);
  }

  /** Rows without ids share a key, within a call or across calls, exactly if org, source, batch key and position agree. */
  lemma KeysOfRowsWithoutIds(c: Call, d: Call, i: nat, j: nat)
    requires i < |c.rows| && j < |d.rows| && NoIds(c.rows[i]) && NoIds(d.rows[j])
    ensures KeyAt(c, i) == KeyAt(d, j) <==> c.org == d.org && c.source == d.source && c.batchKey == d.batchKey && i == j
  {
    NoIdsMeansNone(c.rows[i]);
    NoIdsMeansNone(d.rows[j]);
    PositionalKeysAreUnique(c.batchKey, d.batchKey, i, j);
    hide Decimal;
  }

  /** The number a string of digits denotes. */
  function Denoted(s: string): nat
    requires forall i :: 0 <= i < |s| ==> '0' <= s[i] <= '9'
  {
    if s == "" then 0 else 10 * Denoted(s[..|s| - 1]) + (s[|s| - 1] - '0') as nat
  }

  /** The position in a key is its decimal numeral, without leading zeros. */
  lemma {:induction false} PositionsAreDecimal(n: nat)
    ensures var s := Decimal(n);
      && (forall i :: 0 <= i < |s| ==> '0' <= s[i] <= '9')
      && Denoted(s) == n && (s[0] == '0' <==> n == 0)
  {
    var s := Decimal(n);
    DigitIs(n % 10);
    if n >= 10 {
      PositionsAreDecimal(n / 10);
      assert s[..|s| - 1] == Decimal(n / 10);
    }
  }

  lemma DigitIs(d: nat)
    requires d < 10
    ensures Digit(d) == '0' + d as char
  {
  }

  /** The table after the first n rows, and whether they all went through. */
  function Bulk(db: Db, c: Call, env: seq<RowEnv>, n: nat): (Db, bool)
    requires n <= |c.rows| == |env|
  {
    if n == 0 then (db, true)
    else
      var (mid, going) := Bulk(db, c, env, n - 1);
      if !going || !env[n - 1].valid then (mid, false)
      else
        var (after, answer) := Ingest(mid, KeyAt(c, n - 1), env[n - 1].ev, env[n - 1].ok);
        (after, !answer.Threw?)
  }

  datatype Entry = Entry(idempotency: string, id: EventId, replayed: bool)

  /** What an entry tells the caller: the key, its event, and whether the key had one before this row. */
  predicate Reports(e: Entry, before: Db, after: Db, key: Key) {
    && e.idempotency == key.idempotency
    && key in after.events && e.id == after.events[key]
    && (e.replayed <==> key in before.events)
  }

  function AnswerEntry(key: Key, answer: Answer): Entry
    requires !answer.Threw?
  {
    Entry(key.idempotency, answer.id, answer.Replay?)
  }

  lemma IngestReports(db: Db, key: Key, ev: EventId, ok: bool)
    ensures var (after, answer) := Ingest(db, key, ev, ok);
      !answer.Threw? ==> Reports(AnswerEntry(key, answer), db, after, key)
  {
  }

  lemma IngestKeepsReports(e: Entry, before: Db, mid: Db, k: Key, key: Key, ev: EventId, ok: bool)
    requires Reports(e, before, mid, k)
    ensures Reports(e, before, Ingest(mid, key, ev, ok).0, k)
  {
  }

  lemma BulkStep(db: Db, c: Call, env: seq<RowEnv>, n: nat)
    requires n < |c.rows| == |env| && Bulk(db, c, env, n).1
    ensures var mid := Bulk(db, c, env, n).0;
      Bulk(db, c, env, n + 1) ==
        if !env[n].valid then (mid, false)
        else
          var (after, answer) := Ingest(mid, KeyAt(c, n), env[n].ev, env[n].ok);
          (after, !answer.Threw?)
  {
  }

  /** Every row so far has its entry. */
  predicate AllReported(done: seq<Entry>, start: Db, c: Call, env: seq<RowEnv>, after: Db)
    requires |done| <= |c.rows| == |env|
  {
    forall i :: 0 <= i < |done| ==> Reports(done[i], Bulk(start, c, env, i).0, after, KeyAt(c, i))
  }

  lemma OneMoreReported(done: seq<Entry>, start: Db, c: Call, env: seq<RowEnv>, mid: Db)
    requires |done| < |c.rows| == |env| && AllReported(done, start, c, env, mid)
    requires Bulk(start, c, env, |done|) == (mid, true)
    ensures var n := |done|;
      var (after, answer) := Ingest(mid, KeyAt(c, n), env[n].ev, env[n].ok);
      !answer.Threw? ==> AllReported(done + [AnswerEntry(KeyAt(c, n), answer)], start, c, env, after)
  {
    hide Bulk, Ingest, Reports, KeyAt, AnswerEntry;
    var n := |done|;
    var key, ev, ok := KeyAt(c, n), env[n].ev, env[n].ok;
    IngestReports(mid, key, ev, ok);
    forall i | 0 <= i < n ensures Reports(done[i], Bulk(start, c, env, i).0, Ingest(mid, key, ev, ok).0, KeyAt(c, i)) {
      IngestKeepsReports(done[i], Bulk(start, c, env, i).0, mid, KeyAt(c, i), key, ev, ok);
    }
  }

  lemma {:induction false} BulkStopped(db: Db, c: Call, env: seq<RowEnv>, m: nat, n: nat)
    requires m <= n <= |c.rows| == |env| && !Bulk(db, c, env, m).1
    ensures Bulk(db, c, env, n) == (Bulk(db, c, env, m).0, false)
  {
    hide Ingest, KeyAt;
    if m < n {
      BulkStopped(db, c, env, m, n - 1);
    }
  }

  /** Where the loop stands after |done| rows. */
  predicate InProgress(done: seq<Entry>, start: Db, c: Call, env: seq<RowEnv>, now: Db)
    requires |c.rows| == |env|
  {
    |done| <= |c.rows| && Bulk(start, c, env, |done|) == (now, true) && AllReported(done, start, c, env, now)
  }

  lemma RowGoesOn(done: seq<Entry>, start: Db, c: Call, env: seq<RowEnv>, mid: Db)
    requires |done| < |c.rows| == |env| && InProgress(done, start, c, env, mid) && env[|done|].valid
    ensures var n := |done|;
      var (after, answer) := Ingest(mid, KeyAt(c, n), env[n].ev, env[n].ok);
      if answer.Threw? then Bulk(start, c, env, |c.rows|) == (after, false)
      else InProgress(done + [AnswerEntry(KeyAt(c, n), answer)], start, c, env, after)
  {
    hide Bulk, Ingest, AllReported, AnswerEntry, KeyAt;
    BulkStep(start, c, env, |done|);
    OneMoreReported(done, start, c, env, mid);
    if !Bulk(start, c, env, |done| + 1).1 { BulkStopped(start, c, env, |done| + 1, |c.rows|); }
  }

  lemma RowStops(done: seq<Entry>, start: Db, c: Call, env: seq<RowEnv>, mid: Db)
    requires |done| < |c.rows| == |env| && InProgress(done, start, c, env, mid) && !env[|done|].valid
    ensures Bulk(start, c, env, |c.rows|) == (mid, false)
  {
    hide Bulk, Ingest, AllReported, AnswerEntry, KeyAt;
    BulkStep(start, c, env, |done|);
    BulkStopped(start, c, env, |done| + 1, |c.rows|);
  }

  predicate AllWithoutIds(c: Call) { forall i :: 0 <= i < |c.rows| ==> NoIds(c.rows[i]) }

  predicate AllNew(c: Call, db: Db) { forall i :: 0 <= i < |c.rows| ==> KeyAt(c, i) !in db.events }

  function Drawn(env: seq<RowEnv>, n: nat): seq<EventId>
    requires n <= |env|
  {
    if n == 0 then [] else Drawn(env, n - 1) + [env[n - 1].ev]
  }

  /** n of the rows have been stored, each under its own key and started once, in order. */
  predicate EachStored(db: Db, c: Call, env: seq<RowEnv>, after: Db, n: nat)
    requires n <= |c.rows| == |env|
  {
    && after.runs == db.runs + Drawn(env, n)
    && |after.events| == |db.events| + n
    && (forall i :: 0 <= i < n ==> KeyAt(c, i) in after.events && after.events[KeyAt(c, i)] == env[i].ev)
    && (forall i :: n <= i < |c.rows| ==> KeyAt(c, i) !in after.events)
    && (forall key :: key in db.events ==> key in after.events && after.events[key] == db.events[key])
  }

  lemma OneMoreEach(db: Db, c: Call, env: seq<RowEnv>, mid: Db, n: nat, ok: bool)
    requires n < |c.rows| == |env| && AllWithoutIds(c) && EachStored(db, c, env, mid, n)
    ensures var (after, answer) := Ingest(mid, KeyAt(c, n), env[n].ev, ok);
      EachStored(db, c, env, after, n + 1) && answer == if ok then Fresh(env[n].ev) else Threw
  {
    var key := KeyAt(c, n);
    var after := Ingest(mid, key, env[n].ev, ok).0;
    forall i | 0 <= i < |c.rows| && i != n ensures KeyAt(c, i) != key {
      KeysOfRowsWithoutIds(c, c, i, n);
    }
    hide KeyAt, AllWithoutIds;
    assert after.events.Keys == mid.events.Keys + {key};
    assert |after.events.Keys| == |after.events| && |mid.events.Keys| == |mid.events|;
    assert db.runs + (Drawn(env, n) + [env[n].ev]) == db.runs + Drawn(env, n) + [env[n].ev];
  }

  lemma {:induction false} AllStoredSoFar(db: Db, c: Call, env: seq<RowEnv>, n: nat)
    requires n <= |c.rows| == |env| && AllWithoutIds(c) && AllNew(c, db) && Bulk(db, c, env, n).1
    ensures EachStored(db, c, env, Bulk(db, c, env, n).0, n)
    decreases n
  {
    hide KeyAt, AllWithoutIds, AllNew, Ingest, EachStored;
    if n == 0 {
      NothingYet(db, c, env);
    } else {
      var mid := Bulk(db, c, env, n - 1).0;
      AllStoredSoFar(db, c, env, n - 1);
      OneMoreEach(db, c, env, mid, n - 1, env[n - 1].ok);
    }
  }

  lemma NextIsNew(db: Db, c: Call, env: seq<RowEnv>, mid: Db, n: nat)
    requires n < |c.rows| == |env| && EachStored(db, c, env, mid, n)
    ensures KeyAt(c, n) !in mid.events
  {
  }

  /** Such a call completes exactly if every row passes the schema and its processor. */
  lemma {:induction false} WhenNewRowsComplete(db: Db, c: Call, env: seq<RowEnv>, n: nat)
    requires n <= |c.rows| == |env| && AllWithoutIds(c) && AllNew(c, db)
    ensures Bulk(db, c, env, n).1 <==> forall i :: 0 <= i < n ==> env[i].valid && env[i].ok
    decreases n
  {
    hide KeyAt, AllWithoutIds, AllNew, Ingest, EachStored;
    if n > 0 {
      WhenNewRowsComplete(db, c, env, n - 1);
      if Bulk(db, c, env, n - 1).1 {
        AllStoredSoFar(db, c, env, n - 1);
        OneMoreEach(db, c, env, Bulk(db, c, env, n - 1).0, n - 1, env[n - 1].ok);
      }
    }
  }

  /**
   A call that completes, of rows without ids none of whose keys had an event:
   every row becomes an event of its own, with one processor start, in order,
   and is answered with it and as new.
   */
  lemma RowsWithoutIdsAreAllStored(db: Db, c: Call, env: seq<RowEnv>, results: seq<Entry>)
    requires |results| == |c.rows| == |env| && AllWithoutIds(c) && AllNew(c, db) && Bulk(db, c, env, |c.rows|).1
    requires AllReported(results, db, c, env, Bulk(db, c, env, |c.rows|).0)
    ensures EachStored(db, c, env, Bulk(db, c, env, |c.rows|).0, |c.rows|)
    ensures forall i :: 0 <= i < |results| ==> results[i] == Entry(KeyAt(c, i).idempotency, env[i].ev, false)
  {
    AllStoredSoFar(db, c, env, |c.rows|);
    hide Bulk, KeyAt, AllWithoutIds;
    forall i | 0 <= i < |results| ensures results[i] == Entry(KeyAt(c, i).idempotency, env[i].ev, false) {
      if !Bulk(db, c, env, i).1 { BulkStopped(db, c, env, i, |c.rows|); }
      AllStoredSoFar(db, c, env, i);
      NextIsNew(db, c, env, Bulk(db, c, env, i).0, i);
      assert Reports(results[i], Bulk(db, c, env, i).0, Bulk(db, c, env, |c.rows|).0, KeyAt(c, i));
    }
  }

  lemma NothingYet(db: Db, c: Call, env: seq<RowEnv>)
    requires |c.rows| == |env| && AllNew(c, db)
    ensures EachStored(db, c, env, db, 0)
  {
  }

  class Route {
    var db: Db

    constructor ()
      ensures db == Db(map[], [])
    {
      db := Db(map[], []);
    }

    /** The bulk handler; None is the thrown error, a row's or the batch audit entry's, which leaves what was ingested before it. */
    method BulkIngest(c: Call, env: seq<RowEnv>, audited: bool) returns (results: Option<seq<Entry>>)
      requires |c.rows| == |env|
      modifies this
      ensures results.Some? <==> Bulk(old(db), c, env, |c.rows|).1 && audited
      ensures db == Bulk(old(db), c, env, |c.rows|).0
      ensures results.Some? ==> |results.value| == |c.rows| && AllReported(results.value, old(db), c, env, db)
    {
      var done: seq<Entry> := [];
      assert InProgress(done, db, c, env, db);
      hide Bulk, Ingest, AllReported, DerivedKey, AnswerEntry;
      while |done| < |c.rows|
        invariant InProgress(done, old(db), c, env, db)
      {
        var n := |done|;
        if !env[n].valid {
          RowStops(done, old(db), c, env, db);
          return None;
        }
        RowGoesOn(done, old(db), c, env, db);
        var key := Key(c.org, c.source, DerivedKey(c.batchKey, c.rows[n], |done|));
        var (after, answer) := Ingest(db, key, env[n].ev, env[n].ok);
        db := after;
        if answer.Threw? {
          return None;
        }
        done := done + [AnswerEntry(key, answer)];
      }
      if !audited {
        return None;
      }
      results := Some(done);
    }
  }

  /** One processor start per event, and one event per key. */
  predicate OncePerKey(db: Db) {
    && OneIdPerKey(db.events) && DistinctRuns(db.runs)
    && (forall key :: key in db.events ==> db.events[key] in db.runs)
    && (forall ev :: ev in db.runs ==> ev in db.events.Values)
  }

  /** The event ids a call would draw are new and distinct. */
  predicate FreshIds(db: Db, env: seq<RowEnv>) {
    && (forall i :: 0 <= i < |env| ==> env[i].ev !in db.events.Values)
    && (forall i, j :: 0 <= i < j < |env| ==> env[i].ev != env[j].ev)
  }

  lemma IngestOnce(db: Db, key: Key, ev: EventId, ok: bool)
    requires OncePerKey(db) && ev !in db.events.Values
    ensures OncePerKey(Ingest(db, key, ev, ok).0)
  {
    var after := Ingest(db, key, ev, ok).0;
    if key !in db.events {
      assert forall k :: k in db.events ==> db.events[k] in db.events.Values;
      forall e | e in after.runs ensures e in after.events.Values {
        if e == ev {
          assert after.events[key] == ev;
        } else {
          var k :| k in db.events && db.events[k] == e;
          assert after.events[k] == e;
        }
      }
      forall k | k in after.events ensures after.events[k] in after.runs {
        assert after.runs[|db.runs|] == ev;
      }
    }
  }

  /** Keys keep their events, processor starts are only appended, and new events come from the ids drawn so far. */
  ghost predicate Extends(db: Db, after: Db, env: seq<RowEnv>, n: nat)
    requires n <= |env|
  {
    && db.runs <= after.runs
    && (forall key :: key in db.events ==> key in after.events && after.events[key] == db.events[key])
    && (forall key :: key in after.events && key !in db.events ==> exists i :: 0 <= i < n && env[i].ev == after.events[key])
  }

  lemma ExtendsNarrow(db: Db, after: Db, env: seq<RowEnv>, n: nat)
    requires n < |env| && Extends(db, after, env, n) && FreshIds(db, env)
    ensures Extends(db, after, env, n + 1)
    ensures env[n].ev !in after.events.Values
  {
    forall key | key in after.events ensures after.events[key] != env[n].ev {
      if key in db.events {
        assert db.events[key] in db.events.Values;
      }
    }
  }

  lemma IngestExtends(db: Db, mid: Db, key: Key, env: seq<RowEnv>, n: nat)
    requires n < |env| && Extends(db, mid, env, n)
    ensures Extends(db, Ingest(mid, key, env[n].ev, env[n].ok).0, env, n + 1)
  {
  }

  /** A call never restarts the processor for a key that already has an event; it only adds starts for new keys. */
  lemma {:induction false} BulkAddsOnly(db: Db, c: Call, env: seq<RowEnv>, n: nat)
    requires n <= |c.rows| == |env| && OncePerKey(db) && FreshIds(db, env)
    ensures var (after, going) := Bulk(db, c, env, n);
      && OncePerKey(after) && Extends(db, after, env, n)
      && (going ==> AllStored(c, after, n))
  {
    hide OncePerKey, Extends, FreshIds, KeyAt, AllStored;
    if n == 0 {
      NothingExtends(db, env);
      assert AllStored(c, db, 0) by { NothingStored(c, db); }
    } else {
      BulkAddsOnly(db, c, env, n - 1);
      var mid := Bulk(db, c, env, n - 1).0;
      ExtendsNarrow(db, mid, env, n - 1);
      IngestOnce(mid, KeyAt(c, n - 1), env[n - 1].ev, env[n - 1].ok);
      IngestExtends(db, mid, KeyAt(c, n - 1), env, n - 1);
      if Bulk(db, c, env, n - 1).1 {
        OneMoreStored(c, mid, n - 1, env[n - 1].ev, env[n - 1].ok);
      }
    }
  }

  /** The first n rows' keys have events. */
  predicate AllStored(c: Call, db: Db, n: nat)
    requires n <= |c.rows|
  {
    forall i :: 0 <= i < n ==> KeyAt(c, i) in db.events
  }

  lemma NothingStored(c: Call, db: Db)
    ensures AllStored(c, db, 0)
  {
  }

  lemma OneMoreStored(c: Call, mid: Db, n: nat, ev: EventId, ok: bool)
    requires n < |c.rows| && AllStored(c, mid, n)
    ensures AllStored(c, Ingest(mid, KeyAt(c, n), ev, ok).0, n + 1)
  {
    hide KeyAt;
  }

  lemma NothingExtends(db: Db, env: seq<RowEnv>)
    ensures Extends(db, db, env, 0)
  {
  }

  /**
   Retrying a bulk call, with the same batch key and rows, after it failed
   anywhere: every row that had an event keeps it and its processor is not
   started again; whenever a retry completes, every row has an event and its
   processor has been started exactly once over all the attempts.
   */
  lemma RetriesNeverRerun(db: Db, c: Call, first: seq<RowEnv>, second: seq<RowEnv>, i: nat)
    requires |c.rows| == |first| == |second| && OncePerKey(db) && FreshIds(db, first) && i < |c.rows|
    requires FreshIds(After(db, c, first), second)
    ensures var mid := After(db, c, first);
      var after := After(mid, c, second);
      && (KeyAt(c, i) in mid.events ==>
           KeyAt(c, i) in after.events && after.events[KeyAt(c, i)] == mid.events[KeyAt(c, i)])
      && DistinctRuns(after.runs) && mid.runs <= after.runs
      && (Bulk(mid, c, second, |c.rows|).1 ==> KeyAt(c, i) in after.events && after.events[KeyAt(c, i)] in after.runs)
  {
    hide After, Bulk, KeyAt, OncePerKey, Extends;
    CallAddsOnly(db, c, first, i);
    var mid := After(db, c, first);
    CallAddsOnly(mid, c, second, i);
    RowAcross(mid, After(mid, c, second), second, KeyAt(c, i));
  }

  /** The table one call leaves. */
  function After(db: Db, c: Call, env: seq<RowEnv>): Db
    requires |c.rows| == |env|
  {
    Bulk(db, c, env, |c.rows|).0
  }

  lemma CallAddsOnly(db: Db, c: Call, env: seq<RowEnv>, i: nat)
    requires |c.rows| == |env| && OncePerKey(db) && FreshIds(db, env) && i < |c.rows|
    ensures OncePerKey(After(db, c, env)) && Extends(db, After(db, c, env), env, |env|)
    ensures Bulk(db, c, env, |c.rows|).1 ==> KeyAt(c, i) in After(db, c, env).events
  {
    BulkAddsOnly(db, c, env, |c.rows|);
  }

  lemma RowAcross(mid: Db, after: Db, env: seq<RowEnv>, key: Key)
    requires OncePerKey(after) && Extends(mid, after, env, |env|)
    ensures DistinctRuns(after.runs) && mid.runs <= after.runs
    ensures key in mid.events ==> key in after.events && after.events[key] == mid.events[key]
    ensures key in after.events ==> after.events[key] in after.runs
  {
  }

  /** One bulk call and what befalls its rows. */
  datatype Attempt = Attempt(call: Call, env: seq<RowEnv>)

  /** Calls one after the other, each drawing ids of its own. */
  predicate Attempts(db: Db, attempts: seq<Attempt>)
    decreases |attempts|
  {
    attempts == [] ||
    (&& |attempts[0].call.rows| == |attempts[0].env| && FreshIds(db, attempts[0].env)
     && Attempts(After(db, attempts[0].call, attempts[0].env), attempts[1..]))
  }

  function AfterAll(db: Db, attempts: seq<Attempt>): Db
    requires Attempts(db, attempts)
    decreases |attempts|
  {
    if attempts == [] then db else AfterAll(After(db, attempts[0].call, attempts[0].env), attempts[1..])
  }

  lemma {:induction false} AttemptsAddOnly(db: Db, attempts: seq<Attempt>, key: Key)
    requires OncePerKey(db) && Attempts(db, attempts) && key in db.events
    ensures var after := AfterAll(db, attempts);
      OncePerKey(after) && db.runs <= after.runs && key in after.events && after.events[key] == db.events[key]
    decreases |attempts|
  {
    hide OncePerKey, After, FreshIds, Extends;
    if attempts != [] {
      CallAdds(db, attempts[0].call, attempts[0].env, key);
      AttemptsAddOnly(After(db, attempts[0].call, attempts[0].env), attempts[1..], key);
    }
  }

  lemma CallAdds(db: Db, c: Call, env: seq<RowEnv>, key: Key)
    requires |c.rows| == |env| && OncePerKey(db) && FreshIds(db, env) && key in db.events
    ensures var after := After(db, c, env);
      OncePerKey(after) && db.runs <= after.runs && key in after.events && after.events[key] == db.events[key]
  {
    BulkAddsOnly(db, c, env, |c.rows|);
  }

  /** Nothing in a later part of a list without repetitions is in an earlier one. */
  lemma NotAgain(before: seq<EventId>, after: seq<EventId>, ev: EventId)
    requires DistinctRuns(after) && before <= after && ev in before
    ensures forall i :: |before| <= i < |after| ==> after[i] != ev
  {
    var j :| 0 <= j < |before| && before[j] == ev;
    assert after[j] == ev;
  }

  /**
   The other side of it: a row whose processor threw keeps its event through
   any later calls, none of them starts the processor for it again, and after
   all of them it is still answered as a replay.
   */
  lemma FailedRowsAreNotRetried(
    db: Db, key: Key, ev: EventId, attempts: seq<Attempt>, again: EventId, ok: bool)
    requires OncePerKey(db) && key !in db.events && ev !in db.events.Values
    requires Attempts(Ingest(db, key, ev, false).0, attempts)
    ensures Ingest(db, key, ev, false).1.Threw?
    ensures var failed := Ingest(db, key, ev, false).0;
      var later := AfterAll(failed, attempts);
      && Ingest(later, key, again, ok) == (later, Replay(ev))
      && failed.runs <= later.runs && forall i :: |failed.runs| <= i < |later.runs| ==> later.runs[i] != ev
  {
    var failed := Ingest(db, key, ev, false).0;
    IngestOnce(db, key, ev, false);
    AttemptsAddOnly(failed, attempts, key);
    assert failed.runs[|db.runs|] == ev;
    OnlyDistinctRuns(AfterAll(failed, attempts));
    hide OncePerKey, AfterAll, Attempts;
    NotAgain(failed.runs, AfterAll(failed, attempts).runs, ev);
  }

  lemma OnlyDistinctRuns(db: Db)
    requires OncePerKey(db)
    ensures DistinctRuns(db.runs)
  {
  }
}
