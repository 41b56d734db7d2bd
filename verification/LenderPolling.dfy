/**
 Lender decisions, the polls that reconcile them and the reporting log the
 polls append (apps/api/src/domains/lenders/lender-submission.service.ts), and
 the worker pool that polls a batch (apps/api/src/workers/lender-polling.worker.ts).
 */
module LenderPolling {
  import opened Wrappers
  import WorkPool

  type Id = nat

  datatype Outcome = PENDING | APPROVED | DECLINED
  datatype Funding = FPENDING | FUNDED | FAILED

  /** The reconciled columns of a decision. */
  datatype State = State(
    decision: Outcome,
    funding: Funding,
    approvalAmount: Option<string>,
    apr: Option<string>,
    term: Option<int>,
    monthlyPayment: Option<string>,
    originationFee: Option<string>,
    fundingAmount: Option<string>,
    fundingTimestamp: Option<int>)

  datatype Decision = Decision(externalId: Option<string>, decidedAt: int, state: State)

  // ---------------------------------------------------------------- one poll

  /** A missing amount, or an empty one, leaves the stored amount. */
  function TextOr(given: Option<string>, stored: Option<string>): Option<string> {
    if given.Some? && given.value != "" then given else stored
  }

  function Or(given: Option<int>, stored: Option<int>): Option<int> {
    if given.Some? then given else stored
  }

  /** The row after the adapter reported `result`: outcome and funding are taken over, the details only when given. */
  function Merge(stored: State, result: State): State {
    State(result.decision, result.funding,
          TextOr(result.approvalAmount, stored.approvalAmount),
          TextOr(result.apr, stored.apr),
          Or(result.term, stored.term),
          TextOr(result.monthlyPayment, stored.monthlyPayment),
          TextOr(result.originationFee, stored.originationFee),
          TextOr(result.fundingAmount, stored.fundingAmount),
          Or(result.fundingTimestamp, stored.fundingTimestamp))
  }

  /** A report that gives every detail, and one that gives none. */
  predicate Complete(r: State) {
    && r.term.Some? && r.fundingTimestamp.Some?
    && Given(r.approvalAmount) && Given(r.apr) && Given(r.monthlyPayment) && Given(r.originationFee) && Given(r.fundingAmount)
  }

  predicate Given(amount: Option<string>) { amount.Some? && amount.value != "" }

  predicate Bare(r: State) {
    && r.term.None? && r.fundingTimestamp.None?
    && !Given(r.approvalAmount) && !Given(r.apr) && !Given(r.monthlyPayment) && !Given(r.originationFee)
    && !Given(r.fundingAmount)
  }

  /**
   How reports add up: a complete one replaces the row, a bare one moves only
   the status, reporting what is stored changes nothing, and reports can be
   merged with each other before they are merged into the row.
   */
  lemma ReportsAddUp(a: State, b: State, c: State)
    ensures Complete(b) ==> Merge(a, b) == b
    ensures Bare(b) ==> Merge(a, b) == a.(decision := b.decision, funding := b.funding)
    ensures Merge(a, a) == a && Merge(Merge(a, b), b) == Merge(a, b)
    ensures Merge(Merge(a, b), c) == Merge(a, Merge(b, c))
  {
  }

  /**
   Each detail is taken over on its own: giving it sets it in the row and
   nothing else, and leaving it out, or giving an empty amount, leaves the
   row's, whatever else the report gives.
   */
  lemma DetailsAreTakenOneByOne(a: State, r: State, x: string, n: int, empty: Option<string>)
    requires x != "" && (empty == None || empty == Some(""))
    ensures Merge(a, r.(approvalAmount := Some(x))) == Merge(a, r).(approvalAmount := Some(x))
    ensures Merge(a, r.(approvalAmount := empty)) == Merge(a, r).(approvalAmount := a.approvalAmount)
    ensures Merge(a, r.(apr := Some(x))) == Merge(a, r).(apr := Some(x))
    ensures Merge(a, r.(apr := empty)) == Merge(a, r).(apr := a.apr)
    ensures Merge(a, r.(term := Some(n))) == Merge(a, r).(term := Some(n))
    ensures Merge(a, r.(term := None)) == Merge(a, r).(term := a.term)
    ensures Merge(a, r.(monthlyPayment := Some(x))) == Merge(a, r).(monthlyPayment := Some(x))
    ensures Merge(a, r.(monthlyPayment := empty)) == Merge(a, r).(monthlyPayment := a.monthlyPayment)
    ensures Merge(a, r.(originationFee := Some(x))) == Merge(a, r).(originationFee := Some(x))
    ensures Merge(a, r.(originationFee := empty)) == Merge(a, r).(originationFee := a.originationFee)
    ensures Merge(a, r.(fundingAmount := Some(x))) == Merge(a, r).(fundingAmount := Some(x))
    ensures Merge(a, r.(fundingAmount := empty)) == Merge(a, r).(fundingAmount := a.fundingAmount)
    ensures Merge(a, r.(fundingTimestamp := Some(n))) == Merge(a, r).(fundingTimestamp := Some(n))
    ensures Merge(a, r.(fundingTimestamp := None)) == Merge(a, r).(fundingTimestamp := a.fundingTimestamp)
    ensures Merge(a, r).decision == r.decision && Merge(a, r).funding == r.funding
  {
  }

  predicate SameStatus(a: State, b: State) { a.decision == b.decision && a.funding == b.funding }

  /** The terminal test of pollOne. */
  predicate Terminal(s: State) { s.decision != PENDING && s.funding == FUNDED }

  /** The WHERE clause of the candidate query. */
  predicate Candidate(s: State) { s.decision == PENDING || s.funding != FUNDED }

  /**
   How a poll goes: the adapter fails; it reports; it reports but the event
   cannot be composed, so that the failure event takes its place beside the
   updated row; or a statement fails in the database, which refuses the failure
   event too.
   */
  datatype Reply =
    | Failure(error: string)
    | Report(result: State)
    | Unlogged(result: State, error: string)
    | Broken(result: State, error: string)

  datatype Event =
    | Submitted(id: Id)
    | SubmitFailed(error: string)
    | Polled(id: Id, transition: bool, beforeDecision: Outcome, beforeFunding: Funding, after: State)
    | PollFailed(id: Id, error: string)

  datatype Db = Db(decisions: map<Id, Decision>, log: seq<Event>)

  function Clip(error: string): string { if |error| <= 8000 then error else error[..8000] }

  // ---------------------------------------------------------------- the tenant transaction

  /** What the function run inside withTenantSession has written, and what it throws, if it does. */
  datatype Body = Body(written: Db, thrown: Option<string>)

  /** The transaction commits if and only if its function returns. */
  function Commit(before: Db, body: Body): Db {
    if body.thrown.None? then body.written else before
  }

  predicate Polls(db: Db, id: Id) {
    id in db.decisions && db.decisions[id].externalId.Some? && !Terminal(db.decisions[id].state)
  }

  /** The table with the report merged into the row. */
  function Merged(decisions: map<Id, Decision>, id: Id, result: State): map<Id, Decision>
    requires id in decisions
  {
    decisions[id := decisions[id].(state := Merge(decisions[id].state, result))]
  }

  function PollBody(db: Db, id: Id, reply: Reply): Body
    requires id in db.decisions
  {
    var now := db.decisions[id].state;
    match reply
    case Failure(error) => Body(db.(log := db.log + [PollFailed(id, Clip(error))]), None)
    case Report(result) =>
      var event := Polled(id, !SameStatus(now, result), now.decision, now.funding, result);
      Body(Db(Merged(db.decisions, id, result), db.log + [event]), None)
    case Unlogged(result, error) =>
      Body(Db(Merged(db.decisions, id, result), db.log + [PollFailed(id, Clip(error))]), None)
    case Broken(result, error) => Body(db.(decisions := Merged(db.decisions, id, result)), Some(error))
  }

  /** pollOne, as one step. */
  function AfterPoll(db: Db, id: Id, reply: Reply): Db {
    if Polls(db, id) then Commit(db, PollBody(db, id, reply)) else db
  }

  function NewState(): State {
    State(PENDING, FPENDING, None, None, None, None, None, None, None)
  }

  /** What becomes of a submission; the id is that of the decision with this org and external id. */
  datatype Submission = Accepted(id: Id, externalId: string, at: int) | Refused(error: string)

  /** The upsert creates the decision or leaves it alone, and the submission is logged; a refusal is logged and thrown on. */
  function SubmitBody(db: Db, s: Submission): Body {
    match s
    case Accepted(id, externalId, at) =>
      Body(Db(if id in db.decisions then db.decisions
              else db.decisions[id := Decision(Some(externalId), at, NewState())],
              db.log + [Submitted(id)]),
           None)
    case Refused(error) => Body(db.(log := db.log + [SubmitFailed(Clip(error))]), Some(error))
  }

  function AfterSubmit(db: Db, s: Submission): Db { Commit(db, SubmitBody(db, s)) }

  class LenderStore {
    var decisions: map<Id, Decision>
    var log: seq<Event>

    constructor (decisions: map<Id, Decision>)
      ensures Contents() == Db(decisions, [])
    {
      this.decisions, log := decisions, [];
    }

    function Contents(): Db
      reads this
    {
      Db(decisions, log)
    }

    /** withTenantSession around what a body has written. */
    method EndTransaction(txDecisions: map<Id, Decision>, txLog: seq<Event>, thrown: Option<string>)
      modifies this
      ensures Contents() == Commit(old(Contents()), Body(Db(txDecisions, txLog), thrown))
    {
      if thrown.None? {
        decisions, log := txDecisions, txLog;
      }
    }

    method SubmitToLender(s: Submission) returns (r: Result<Decision, string>)
      modifies this
      ensures Contents() == AfterSubmit(old(Contents()), s)
      ensures s.Accepted? ==> s.id in decisions && r == Ok(decisions[s.id])
      ensures s.Refused? ==> r == Err(s.error)
    {
      var txDecisions, txLog := decisions, log;
      match s {
        case Accepted(id, externalId, at) =>
          if id !in txDecisions {
            txDecisions := txDecisions[id := Decision(Some(externalId), at, NewState())];
          }
          txLog := txLog + [Submitted(id)];
          EndTransaction(txDecisions, txLog, None);
          r := Ok(decisions[id]);
        case Refused(error) =>
          txLog := txLog + [SubmitFailed(Clip(error))];
          EndTransaction(txDecisions, txLog, Some(error));
          r := Err(error);
      }
    }

    method PollOne(id: Id, reply: Reply) returns (thrown: Option<string>)
      modifies this
      ensures Contents() == AfterPoll(old(Contents()), id, reply)
      ensures thrown == if Polls(old(Contents()), id) && reply.Broken? then Some(reply.error) else None
    {
      thrown := None;
      if id !in decisions || decisions[id].externalId.None? {
        return;
      }
      var decision := decisions[id];
      if decision.state.decision != PENDING && decision.state.funding == FUNDED {
        return;
      }
      var txDecisions, txLog := decisions, log;
      if !reply.Failure? {
        txDecisions := txDecisions[id := decision.(state := Merge(decision.state, reply.result))];
      }
      match reply {
        case Report(result) =>
          var before := decision.state;
          var transition := before.decision != result.decision || before.funding != result.funding;
          txLog := txLog + [Polled(id, transition, before.decision, before.funding, result)];
        case Failure(error) =>
          txLog := txLog + [PollFailed(id, Clip(error))];
        case Unlogged(_, error) =>
          txLog := txLog + [PollFailed(id, Clip(error))];
        case Broken(_, error) =>
          thrown := Some(error);
      }
      EndTransaction(txDecisions, txLog, thrown);
    }
  }

  /** The first 8000 characters of an error. */
  predicate IsHead(text: string, error: string) { text <= error && |text| == if |error| < 8_000 then |error| else 8_000 }

  /**
   What a poll leaves, for each way it goes.  No other decision is touched, and
   neither is the id or the time of this one.  A report is merged into the row
   and logged with the status before and after, as a transition exactly if they
   differ; a failure is logged, the row being as it was or, where only the event
   failed, merged; a broken statement leaves nothing.
   */
  lemma WhatAPollLeaves(db: Db, id: Id, reply: Reply, other: Id)
    requires id in db.decisions && db.decisions[id].externalId.Some?
    requires !(db.decisions[id].state.decision != PENDING && db.decisions[id].state.funding == FUNDED)
    ensures var before, after, db' := db.decisions[id], AfterPoll(db, id, reply).decisions, AfterPoll(db, id, reply);
      && after.Keys == db.decisions.Keys
      && (other in db.decisions && other != id ==> after[other] == db.decisions[other])
      && after[id].externalId == before.externalId && after[id].decidedAt == before.decidedAt
      && (reply.Report? || reply.Unlogged? ==> after[id].state == Merge(before.state, reply.result))
      && (reply.Failure? || reply.Broken? ==> after[id].state == before.state)
      && (reply.Broken? ==> db'.log == db.log)
      && (!reply.Broken? ==> |db'.log| == |db.log| + 1 && db.log <= db'.log)
      && (reply.Failure? || reply.Unlogged? ==>
           db'.log[|db.log|].PollFailed? && db'.log[|db.log|].id == id && IsHead(db'.log[|db.log|].error, reply.error))
      && (reply.Report? ==>
           var e := db'.log[|db.log|];
           && e.Polled? && e.id == id && e.after == reply.result
           && e.beforeDecision == before.state.decision && e.beforeFunding == before.state.funding
           && (e.transition <==>
                before.state.decision != reply.result.decision || before.state.funding != reply.result.funding))
  {
  }

  /** A poll of anything else does nothing. */
  lemma WhatIsNotPolled(db: Db, id: Id, reply: Reply)
    requires id in db.decisions ==>
      || db.decisions[id].externalId.None?
      || (db.decisions[id].state.decision != PENDING && db.decisions[id].state.funding == FUNDED)
    ensures AfterPoll(db, id, reply) == db
  {
  }

  /** What a submission leaves: a new decision that is pending and bare, or the one there was, and one event; a refusal, nothing. */
  lemma WhatASubmissionLeaves(db: Db, s: Submission, other: Id)
    ensures var db' := AfterSubmit(db, s);
      && (s.Refused? ==> db' == db)
      && (s.Accepted? ==>
           && db'.log == db.log + [Submitted(s.id)]
           && db'.decisions.Keys == db.decisions.Keys + {s.id}
           && (other in db.decisions ==> db'.decisions[other] == db.decisions[other])
           && (s.id !in db.decisions ==>
                db'.decisions[s.id] ==
                  Decision(Some(s.externalId), s.at, State(PENDING, FPENDING, None, None, None, None, None, None, None))))
  {
  }

  // ---------------------------------------------------------------- the log

  /** The successful polls of one decision, in order. */
  function PollsOf(log: seq<Event>, id: Id): seq<Event> {
    if log == [] then []
    else
      var n := |log| - 1;
      PollsOf(log[..n], id) + (if log[n].Polled? && log[n].id == id then [log[n]] else [])
  }

  lemma PollsOfAppend(log: seq<Event>, e: Event, id: Id)
    ensures PollsOf(log + [e], id) == if e.Polled? && e.id == id then PollsOf(log, id) + [e] else PollsOf(log, id)
  {
    assert (log + [e])[..|log|] == log;
  }

  /** Applying the logged reports, one after the other, to a starting state. */
  function Replay(start: State, polls: seq<Event>): State {
    if polls == [] then start
    else
      var n := |polls| - 1;
      if polls[n].Polled? then Merge(Replay(start, polls[..n]), polls[n].after) else Replay(start, polls[..n])
  }

  /** A poll's before is a status, and it is marked a transition exactly when it changes it. */
  predicate Continues(e: Event, decision: Outcome, funding: Funding) {
    && e.Polled?
    && e.beforeDecision == decision && e.beforeFunding == funding
    && (e.transition <==> e.beforeDecision != e.after.decision || e.beforeFunding != e.after.funding)
  }

  /** Each poll starts from the status the one before it reported, the first from the status of the start. */
  predicate Chained(start: State, polls: seq<Event>) {
    polls == [] ||
    (var n := |polls| - 1;
     && Chained(start, polls[..n])
     && if n == 0 then Continues(polls[n], start.decision, start.funding)
        else polls[n - 1].Polled? && Continues(polls[n], polls[n - 1].after.decision, polls[n - 1].after.funding))
  }

  /** The store, and the state each decision was created in. */
  datatype World = World(db: Db, origin: map<Id, State>)

  /** A decision's log accounts for its row, from the state it was created in. */
  ghost predicate AccountedFor(w: World, id: Id) {
    && (id in w.origin <==> id in w.db.decisions)
    && (id in w.db.decisions ==>
         && Chained(w.origin[id], PollsOf(w.db.log, id))
         && Replay(w.origin[id], PollsOf(w.db.log, id)) == w.db.decisions[id].state)
    && (id !in w.db.decisions ==> PollsOf(w.db.log, id) == [])
  }

  /** Decisions are created by submissions and, without a log, by whatever else writes the table. */
  datatype Step =
    | SubmitStep(submission: Submission)
    | PollStep(id: Id, reply: Reply)
    | CreateStep(id: Id, decision: Decision)

  function ApplyDb(db: Db, s: Step): Db {
    match s
    case SubmitStep(submission) => AfterSubmit(db, submission)
    case PollStep(id, reply) => AfterPoll(db, id, reply)
    case CreateStep(id, decision) => if id in db.decisions then db else db.(decisions := db.decisions[id := decision])
  }

  function Apply(w: World, s: Step): World {
    var db := ApplyDb(w.db, s);
    World(db, map id | id in db.decisions :: if id in w.origin then w.origin[id] else db.decisions[id].state)
  }

  function Run(w: World, run: seq<Step>): World
    decreases |run|
  {
    if run == [] then w else Run(Apply(w, run[0]), run[1..])
  }

  /** A table as it is found, its log empty. */
  function Start(decisions: map<Id, Decision>): World {
    World(Db(decisions, []), map id | id in decisions :: decisions[id].state)
  }

  lemma ReplayEndsInStatus(start: State, polls: seq<Event>)
    requires Chained(start, polls)
    ensures var end := Replay(start, polls);
      if polls == [] then end == start
      else polls[|polls| - 1].Polled? && SameStatus(end, polls[|polls| - 1].after)
  {
  }

  lemma ChainExtends(start: State, polls: seq<Event>, id: Id, result: State)
    requires Chained(start, polls)
    ensures var now := Replay(start, polls);
      var e := Polled(id, !SameStatus(now, result), now.decision, now.funding, result);
      && Chained(start, polls + [e])
      && Replay(start, polls + [e]) == Merge(now, result)
  {
    hide Merge;
    ReplayEndsInStatus(start, polls);
    var now := Replay(start, polls);
    var e := Polled(id, !SameStatus(now, result), now.decision, now.funding, result);
    assert (polls + [e])[..|polls|] == polls;
  }

  /** The poll leaves a row updated without the event that says so. */
  predicate GoesUnlogged(w: World, s: Step, id: Id) {
    s.PollStep? && s.id == id && s.reply.Unlogged? && Polls(w.db, id)
  }

  lemma LogGrowsByOne(db: Db, s: Step) returns (added: seq<Event>)
    ensures ApplyDb(db, s).log == db.log + added && |added| <= 1
    ensures s.PollStep? && Polls(db, s.id) && s.reply.Report? <==> added != [] && added[0].Polled?
    ensures added != [] && added[0].Polled? ==> added[0].id == s.id
  {
    added := if |ApplyDb(db, s).log| == |db.log| then [] else [ApplyDb(db, s).log[|db.log|]];
  }

  /** The polls of a decision are its logged reports: every other step leaves them alone. */
  lemma PollsGrow(db: Db, s: Step, id: Id)
    ensures PollsOf(ApplyDb(db, s).log, id) ==
      if s.PollStep? && s.id == id && Polls(db, id) && s.reply.Report? then
        var now := db.decisions[id].state;
        var result := s.reply.result;
        PollsOf(db.log, id) + [Polled(id, !SameStatus(now, result), now.decision, now.funding, result)]
      else PollsOf(db.log, id)
  {
    var added := LogGrowsByOne(db, s);
    if added == [] {
      assert db.log + added == db.log;
    } else {
      assert db.log + added == db.log + [added[0]];
      PollsOfAppend(db.log, added[0], id);
    }
  }

  /**
   One step keeps a decision's account, unless it is a report that updates the
   row without being logged; then the account is kept exactly when the report
   changed nothing.
   */
  lemma StepKeeps(w: World, s: Step, id: Id)
    requires AccountedFor(w, id)
    ensures AccountedFor(Apply(w, s), id) <==>
      GoesUnlogged(w, s, id) ==> Merge(w.db.decisions[id].state, s.reply.result) == w.db.decisions[id].state
  {
    hide Chained, Replay, PollsOf, Merge;
    PollsGrow(w.db, s, id);
    if id in w.db.decisions && s.PollStep? && s.id == id && Polls(w.db, id) && s.reply.Report? {
      ChainExtends(w.origin[id], PollsOf(w.db.log, id), id, s.reply.result);
    }
    if id !in w.db.decisions && id in Apply(w, s).db.decisions {
      EmptyLog(Apply(w, s).origin[id]);
    }
  }

  lemma EmptyLog(start: State)
    ensures Chained(start, []) && Replay(start, []) == start
  {
  }

  /** Every report on the decision in the run is logged, or changes nothing. */
  ghost predicate ReportsLogged(w: World, run: seq<Step>, id: Id)
    decreases |run|
  {
    run == [] ||
    (&& (GoesUnlogged(w, run[0], id) ==>
          Merge(w.db.decisions[id].state, run[0].reply.result) == w.db.decisions[id].state)
     && ReportsLogged(Apply(w, run[0]), run[1..], id))
  }

  lemma {:induction false} RunKeeps(w: World, run: seq<Step>, id: Id)
    requires AccountedFor(w, id) && ReportsLogged(w, run, id)
    ensures AccountedFor(Run(w, run), id)
    decreases |run|
  {
    if run != [] {
      hide AccountedFor, GoesUnlogged, Merge;
      StepKeeps(w, run[0], id);
      RunKeeps(Apply(w, run[0]), run[1..], id);
    }
  }

  /**
   The log tells the truth: over every run of submissions, other creations and
   non-overlapping polls, from any table, the successful polls of a decision
   chain before to after, are marked STATE_TRANSITION exactly where the status
   changes, and replayed from the state it was created in they give the row as
   it stands, as long as every report that changed the row was logged.
   */
  lemma LogReplaysToTheRow(decisions: map<Id, Decision>, run: seq<Step>, id: Id)
    requires id in Run(Start(decisions), run).db.decisions && ReportsLogged(Start(decisions), run, id)
    ensures var w := Run(Start(decisions), run);
      && id in w.origin
      && Chained(w.origin[id], PollsOf(w.db.log, id))
      && Replay(w.origin[id], PollsOf(w.db.log, id)) == w.db.decisions[id].state
  {
    if id in decisions { EmptyLog(decisions[id].state); }
    RunKeeps(Start(decisions), run, id);
  }

  /** The decision's account holds now and after every step of the run. */
  ghost predicate AlwaysAccounted(w: World, run: seq<Step>, id: Id)
    decreases |run|
  {
    AccountedFor(w, id) && (run == [] || AlwaysAccounted(Apply(w, run[0]), run[1..], id))
  }

  /** And exactly then does it do so all along. */
  lemma {:induction false} WhenTheLogAlwaysReplays(w: World, run: seq<Step>, id: Id)
    requires AccountedFor(w, id)
    ensures AlwaysAccounted(w, run, id) <==> ReportsLogged(w, run, id)
    decreases |run|
  {
    if run != [] {
      hide AccountedFor, GoesUnlogged, Merge;
      StepKeeps(w, run[0], id);
      if AccountedFor(Apply(w, run[0]), id) {
        WhenTheLogAlwaysReplays(Apply(w, run[0]), run[1..], id);
      }
    }
  }

  /** An approval whose event cannot be composed: the row is approved, the log knows of a failure only. */
  lemma AnUnloggedReportShows(db: Db, id: Id, result: State, error: string)
    requires Polls(db, id) && db.decisions[id].state == NewState() && result == NewState().(decision := APPROVED)
    ensures var after := AfterPoll(db, id, Unlogged(result, error));
      && after.decisions[id].state.decision == APPROVED
      && PollsOf(after.log, id) == PollsOf(db.log, id)
  {
    PollsGrow(db, PollStep(id, Unlogged(result, error)), id);
  }

  // ---------------------------------------------------------------- what survives the transaction

  /**
   The two failure events side by side: both bodies write one, but pollOne
   swallows its error, so that POLL_FAILED is committed, and submitToLender
   throws it on, so that SUBMIT_FAILED is rolled back with everything else.
   */
  lemma OnlyPollFailuresAreRecorded(db: Db, id: Id, error: string)
    requires Polls(db, id)
    ensures PollBody(db, id, Failure(error)).written.log == db.log + [PollFailed(id, Clip(error))]
    ensures AfterPoll(db, id, Failure(error)).log == db.log + [PollFailed(id, Clip(error))]
    ensures SubmitBody(db, Refused(error)).written.log == db.log + [SubmitFailed(Clip(error))]
    ensures AfterSubmit(db, Refused(error)) == db
  {
  }

  predicate NoSubmitFailure(log: seq<Event>) { forall e :: e in log ==> !e.SubmitFailed? }

  /** So in no run is a refusal on record. */
  lemma {:induction false} RefusalsLeaveNoTrace(w: World, run: seq<Step>)
    requires NoSubmitFailure(w.db.log)
    ensures NoSubmitFailure(Run(w, run).db.log)
    decreases |run|
  {
    if run != [] {
      RefusalIsRolledBack(w.db, run[0]);
      hide NoSubmitFailure;
      RefusalsLeaveNoTrace(Apply(w, run[0]), run[1..]);
    }
  }

  lemma RefusalIsRolledBack(db: Db, s: Step)
    requires NoSubmitFailure(db.log)
    ensures NoSubmitFailure(ApplyDb(db, s).log)
  {
  }

  /** Once terminal, a decision is neither polled nor changed by anything, and its log is closed. */
  lemma TerminalIsFinal(w: World, s: Step, id: Id)
    requires id in w.db.decisions && Terminal(w.db.decisions[id].state)
    ensures id in Apply(w, s).db.decisions && Apply(w, s).db.decisions[id] == w.db.decisions[id]
    ensures PollsOf(Apply(w, s).db.log, id) == PollsOf(w.db.log, id)
    ensures !Candidate(w.db.decisions[id].state)
  {
    PollsGrow(w.db, s, id);
    hide PollsOf, Merge;
  }

  // ---------------------------------------------------------------- the batch

  datatype Handling = NoAdapter | Async | BreakerOpen | Call(reply: Reply)

  /** One turn of a polling loop for the item it holds. */
  function Handle(db: Db, id: Id, h: Handling): Db {
    if h.Call? then AfterPoll(db, id, h.reply) else db
  }

  /** Handling items in the order they finish, each as its adapter and its breaker would have it at that moment. */
  function HandleAll(db: Db, batch: seq<Id>, order: seq<nat>, hs: seq<Handling>): Db
    requires |hs| == |order| && forall i :: 0 <= i < |order| ==> order[i] < |batch|
  {
    if order == [] then db
    else
      var n := |order| - 1;
      Handle(HandleAll(db, batch, order[..n], hs[..n]), batch[order[n]], hs[n])
  }

  predicate DistinctIds(batch: seq<Id>) { forall i, j :: 0 <= i < j < |batch| ==> batch[i] != batch[j] }

  predicate DistinctOrder(order: seq<nat>) { forall i, j :: 0 <= i < j < |order| ==> order[i] != order[j] }

  /** Every item of the batch, once. */
  predicate IsOrderOf(order: seq<nat>, batch: seq<Id>) {
    && DistinctOrder(order)
    && (forall i :: 0 <= i < |order| ==> order[i] < |batch|)
    && (forall k: nat :: k < |batch| ==> k in order)
  }

  /** The decision a handled candidate ends with. */
  function Polled1(d: Decision, h: Handling): Decision {
    if h.Call? && d.externalId.Some? && !Terminal(d.state) && (h.reply.Report? || h.reply.Unlogged?) then
      d.(state := Merge(d.state, h.reply.result))
    else d
  }

  lemma HandleOne(db: Db, id: Id, h: Handling)
    requires id in db.decisions
    ensures Handle(db, id, h).decisions == db.decisions[id := Polled1(db.decisions[id], h)]
  {
  }

  predicate InBatch(db: Db, batch: seq<Id>) { forall k :: 0 <= k < |batch| ==> batch[k] in db.decisions }

  /** In whatever order distinct decisions are handled, each ends with its own handling and no other row changes. */
  lemma {:induction false} OrderDoesNotMatter(db: Db, batch: seq<Id>, order: seq<nat>, hs: seq<Handling>, id: Id)
    requires DistinctIds(batch) && InBatch(db, batch) && DistinctOrder(order) && id in db.decisions
    requires |hs| == |order| && forall i :: 0 <= i < |order| ==> order[i] < |batch|
    ensures HandleAll(db, batch, order, hs).decisions.Keys == db.decisions.Keys
    ensures forall i :: 0 <= i < |order| && batch[order[i]] == id ==>
      HandleAll(db, batch, order, hs).decisions[id] == Polled1(db.decisions[id], hs[i])
    ensures (forall i :: 0 <= i < |order| ==> batch[order[i]] != id) ==>
      HandleAll(db, batch, order, hs).decisions[id] == db.decisions[id]
  {
    if order != [] {
      var n := |order| - 1;
      OrderDoesNotMatter(db, batch, order[..n], hs[..n], id);
      HandleOne(HandleAll(db, batch, order[..n], hs[..n]), batch[order[n]], hs[n]);
      hide Handle, Polled1;
    }
  }

  lemma {:induction false} HandlingKeepsKeys(db: Db, batch: seq<Id>, order: seq<nat>, hs: seq<Handling>)
    requires InBatch(db, batch) && |hs| == |order| && forall i :: 0 <= i < |order| ==> order[i] < |batch|
    ensures HandleAll(db, batch, order, hs).decisions.Keys == db.decisions.Keys
  {
    if order != [] {
      var n := |order| - 1;
      HandlingKeepsKeys(db, batch, order[..n], hs[..n]);
      HandleOne(HandleAll(db, batch, order[..n], hs[..n]), batch[order[n]], hs[n]);
    }
  }

  lemma Position(order: seq<nat>, batch: seq<Id>, k: nat) returns (i: nat)
    requires IsOrderOf(order, batch) && k < |batch|
    ensures i < |order| && order[i] == k
  {
    assert k in order;
    i :| 0 <= i < |order| && order[i] == k;
  }

  /** A row after the batch: polled as its item was handled, or untouched. */
  lemma RowAfter(db: Db, batch: seq<Id>, order: seq<nat>, hs: seq<Handling>, k: nat) returns (i: nat)
    requires DistinctIds(batch) && InBatch(db, batch) && IsOrderOf(order, batch) && |hs| == |order| && k < |batch|
    ensures i < |order| && order[i] == k && batch[k] in HandleAll(db, batch, order, hs).decisions
    ensures HandleAll(db, batch, order, hs).decisions[batch[k]] == Polled1(db.decisions[batch[k]], hs[i])
  {
    OrderDoesNotMatter(db, batch, order, hs, batch[k]);
    i := Position(order, batch, k);
  }

  /** Two polls of a batch that treat every item alike leave the same rows, however their workers interleave. */
  lemma EqualHandlingsEqualRows(
    db: Db, batch: seq<Id>, order: seq<nat>, hs: seq<Handling>, order': seq<nat>, hs': seq<Handling>)
    requires DistinctIds(batch) && InBatch(db, batch) && IsOrderOf(order, batch) && IsOrderOf(order', batch)
    requires |hs| == |order| && |hs'| == |order'|
    requires forall i, j :: 0 <= i < |order| && 0 <= j < |order'| && order[i] == order'[j] ==> hs[i] == hs'[j]
    ensures HandleAll(db, batch, order, hs).decisions == HandleAll(db, batch, order', hs').decisions
  {
    HandlingKeepsKeys(db, batch, order, hs);
    HandlingKeepsKeys(db, batch, order', hs');
    hide HandleAll, Polled1;
    forall id | id in db.decisions
      ensures HandleAll(db, batch, order, hs).decisions[id] == HandleAll(db, batch, order', hs').decisions[id]
    {
      if k: nat :| k < |batch| && batch[k] == id {
        var i := RowAfter(db, batch, order, hs, k);
        var j := RowAfter(db, batch, order', hs', k);
      } else {
        OrderDoesNotMatter(db, batch, order, hs, id);
        OrderDoesNotMatter(db, batch, order', hs', id);
      }
    }
  }

  /**
   A poll of the whole batch: under any interleaving of the workers, and
   whatever adapters and breakers make of each item when its turn comes, every
   candidate is handled exactly once and ends as its own handling says.
   */
  lemma BatchPollsEachOnce(
    db: Db, batch: seq<Id>, run: seq<WorkPool.Step>, parallel: nat, hs: seq<Handling>, k: nat)
    requires DistinctIds(batch) && InBatch(db, batch) && k < |batch|
    requires var shape := WorkPool.Shape(|batch|, if |batch| < parallel then |batch| else parallel);
      && WorkPool.Legal(WorkPool.Start(), run, shape)
      && WorkPool.Drained(WorkPool.Run(WorkPool.Start(), run, shape), shape)
      && |hs| == |WorkPool.Run(WorkPool.Start(), run, shape).done|
    ensures var shape := WorkPool.Shape(|batch|, if |batch| < parallel then |batch| else parallel);
      var order := WorkPool.Run(WorkPool.Start(), run, shape).done;
      && IsOrderOf(order, batch) && |order| == |batch|
      && exists i :: 0 <= i < |order| && order[i] == k
           && batch[k] in HandleAll(db, batch, order, hs).decisions
           && HandleAll(db, batch, order, hs).decisions[batch[k]] == Polled1(db.decisions[batch[k]], hs[i])
  {
    var shape := WorkPool.Shape(|batch|, if |batch| < parallel then |batch| else parallel);
    WorkPool.EveryItemOnce(run, shape);
    var order := WorkPool.Run(WorkPool.Start(), run, shape).done;
    assert forall i :: 0 <= i < |order| ==> order[i] in order;
    var i := RowAfter(db, batch, order, hs, k);
  }

  /** The batch query and pollOne agree: a row is a candidate exactly when pollOne, given its external id, would poll it. */
  lemma CandidatesAreWhatIsPolled(db: Db, id: Id)
    requires id in db.decisions
    ensures Polls(db, id) <==> Candidate(db.decisions[id].state) && db.decisions[id].externalId.Some?
    ensures Polls(db, id) <==> exists reply :: AfterPoll(db, id, reply) != db
  {
    if Polls(db, id) {
      assert |AfterPoll(db, id, Failure("")).log| == |db.log| + 1;
    }
  }
}
