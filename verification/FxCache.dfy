/**
 The FX service with its in-process cache, and every run of rate upserts and
 lookups against it (apps/api/src/domains/fx/fx.service.ts,
 apps/api/src/domains/fx/fx.routes.ts).
 */
module FxCache {
  import opened Wrappers
  import opened Calendar
  import opened Fx

  const CACHE_TTL_MS := 3_600_000
  const CACHE_BOUND := 5_000

  datatype CacheKey = CacheKey(from: Currency, to: Currency, day: int)

  datatype Entry = Entry(rate: Decimal, expiresAt: int)

  type Cache = map<CacheKey, Entry>

  predicate Hit(cache: Cache, key: CacheKey, now: int) {
    key in cache && cache[key].expiresAt > now
  }

  /** cacheSet: a full cache is emptied first. */
  function CacheSet(cache: Cache, key: CacheKey, rate: Decimal, now: int): Cache {
    (if |cache| > CACHE_BOUND then map[] else cache)[key := Entry(rate, now + CACHE_TTL_MS)]
  }

  /** One getRate at instant `now`: the answer and the cache it leaves. */
  function Lookup(
    rows: seq<Row>, reporting: Currency, cache: Cache,
    from: Currency, to: Currency, asOf: Option<int>, noCache: bool, now: int)
    : (Result<Decimal, FxError>, Cache)
  {
    var ts := if asOf.Some? then asOf.value else now;
    var key := CacheKey(from, to, Day(ts));
    if from == to then (Ok(Finite(1.0)), cache)
    else if !noCache && Hit(cache, key, now) then (Ok(cache[key].rate), cache)
    else
      var r := Rate(rows, reporting, from, to, ts);
      (r, if r.Ok? then CacheSet(cache, key, r.value, now) else cache)
  }

  class FxService {
    const reporting: Currency
    var cache: Cache

    constructor (reporting: Currency)
      ensures this.reporting == reporting && cache == map[]
    {
      this.reporting, cache := reporting, map[];
    }

    method Put(key: CacheKey, rate: Decimal, now: int)
      modifies this
      ensures cache == CacheSet(old(cache), key, rate, now)
    {
      if |cache| > CACHE_BOUND {
        cache := map[];
      }
      cache := cache[key := Entry(rate, now + CACHE_TTL_MS)];
    }

    method GetRate(rows: seq<Row>, from: Currency, to: Currency, asOf: Option<int>, noCache: bool, now: int)
      returns (r: Result<Decimal, FxError>)
      modifies this
      ensures (r, cache) == Lookup(rows, reporting, old(cache), from, to, asOf, noCache, now)
    {
      if from == to {
        return Ok(Finite(1.0));
      }
      var ts := if asOf.Some? then asOf.value else now;
      var key := CacheKey(from, to, Day(ts));
      if !noCache && key in cache {
        var hit := cache[key];
        if hit.expiresAt > now {
          return Ok(hit.rate);
        }
      }
      var direct := LookupDirect(rows, from, to, ts);
      if direct.Some? {
        Put(key, Finite(direct.value.rate), now);
        return Ok(Finite(direct.value.rate));
      }
      var inverse := LookupDirect(rows, to, from, ts);
      if inverse.Some? {
        var rate := Reciprocal(inverse.value.rate);
        Put(key, rate, now);
        return Ok(rate);
      }
      if from != reporting && to != reporting {
        var first, second := LookupAny(rows, from, reporting, ts), LookupAny(rows, reporting, to, ts);
        if first.Some? && second.Some? {
          var rate := Times(first.value, second.value);
          Put(key, rate, now);
          return Ok(rate);
        }
      }
      r := Err(NoRate(from, to));
    }
  }

  // ---------------------------------------------------------------- runs

  /** The table as it stood at an instant. */
  datatype Moment = Moment(time: int, rows: seq<Row>)

  datatype World = World(now: int, rows: seq<Row>, cache: Cache, past: set<Moment>)

  datatype Event =
    | PutRate(day: int, base: Currency, quote: Currency, rate: real)
    | Get(from: Currency, to: Currency, asOf: Option<int>, noCache: bool)

  /** An event and the instant it happens. */
  datatype Step = Step(time: int, event: Event)

  function Start(now: int): World { World(now, [], map[], {Moment(now, [])}) }

  function Apply(w: World, reporting: Currency, step: Step): World {
    match step.event
    case PutRate(day, base, quote, rate) =>
      var rows := Upsert(w.rows, day, base, quote, rate);
      World(step.time, rows, w.cache, w.past + {Moment(step.time, w.rows), Moment(step.time, rows)})
    case Get(from, to, asOf, noCache) =>
      World(step.time, w.rows,
            Lookup(w.rows, reporting, w.cache, from, to, asOf, noCache, step.time).1,
            w.past + {Moment(step.time, w.rows)})
  }

  function Answer(w: World, reporting: Currency, step: Step): Result<Decimal, FxError>
    requires step.event.Get?
  {
    var e := step.event;
    Lookup(w.rows, reporting, w.cache, e.from, e.to, e.asOf, e.noCache, step.time).0
  }

  /** What a fresh lookup for the cached pair and day gave at that moment. */
  predicate Explains(m: Moment, reporting: Currency, key: CacheKey, e: Entry) {
    && TableOk(m.rows)
    && m.time + CACHE_TTL_MS == e.expiresAt
    && Rate(m.rows, reporting, key.from, key.to, key.day * MS_PER_DAY) == Ok(e.rate)
  }

  ghost predicate Inv(w: World, reporting: Currency) {
    && TableOk(w.rows)
    && |w.cache| <= CACHE_BOUND + 1
    && (forall m :: m in w.past ==> m.time <= w.now)
    && (forall key :: key in w.cache ==> Explained(w.past, reporting, key, w.cache[key]))
  }

  ghost predicate Explained(past: set<Moment>, reporting: Currency, key: CacheKey, e: Entry) {
    exists m :: m in past && Explains(m, reporting, key, e)
  }

  lemma CacheStaysBounded(cache: Cache, key: CacheKey, rate: Decimal, now: int)
    requires |cache| <= 5_001
    ensures |CacheSet(cache, key, rate, now)| <= 5_001
    ensures key in CacheSet(cache, key, rate, now)
    ensures |cache| <= 5_000 ==> forall k :: k in cache && k != key ==>
      k in CacheSet(cache, key, rate, now) && CacheSet(cache, key, rate, now)[k] == cache[k]
  {
    var kept := if |cache| > CACHE_BOUND then map[] else cache;
    assert kept[key := Entry(rate, now + CACHE_TTL_MS)].Keys == kept.Keys + {key};
    assert |kept.Keys| == |kept|;
  }

  lemma FreshEntryIsExplained(
    rows: seq<Row>, reporting: Currency, from: Currency, to: Currency, ts: int, rate: Decimal, now: int)
    requires TableOk(rows) && Rate(rows, reporting, from, to, ts) == Ok(rate)
    ensures Explains(Moment(now, rows), reporting, CacheKey(from, to, Day(ts)), Entry(rate, now + CACHE_TTL_MS))
  {
    RateDependsOnDay(rows, reporting, from, to, ts, Day(ts) * MS_PER_DAY);
  }

  lemma GetKeeps(w: World, reporting: Currency, step: Step)
    requires Inv(w, reporting) && w.now <= step.time && step.event.Get?
    ensures Inv(Apply(w, reporting, step), reporting)
  {
    hide TableOk, Rate, Day, Explains;
    var e := step.event;
    var ts := if e.asOf.Some? then e.asOf.value else step.time;
    var key := CacheKey(e.from, e.to, Day(ts));
    var w' := Apply(w, reporting, step);
    var r := Rate(w.rows, reporting, e.from, e.to, ts);
    if e.from != e.to && (e.noCache || !Hit(w.cache, key, step.time)) && r.Ok? {
      CacheStaysBounded(w.cache, key, r.value, step.time);
      FreshEntryIsExplained(w.rows, reporting, e.from, e.to, ts, r.value, step.time);
    }
    forall k | k in w'.cache ensures Explained(w'.past, reporting, k, w'.cache[k]) {
      if k in w.cache && w'.cache[k] == w.cache[k] {
        StillExplained(w.past, w'.past, reporting, k, w.cache[k]);
      } else {
        assert Moment(step.time, w.rows) in w'.past;
      }
    }
  }

  lemma StillExplained(past: set<Moment>, later: set<Moment>, reporting: Currency, key: CacheKey, e: Entry)
    requires past <= later && Explained(past, reporting, key, e)
    ensures Explained(later, reporting, key, e)
  {
    hide Explains;
    var m :| m in past && Explains(m, reporting, key, e);
    assert m in later;
  }

  lemma StepKeeps(w: World, reporting: Currency, step: Step)
    requires Inv(w, reporting) && w.now <= step.time
    ensures Inv(Apply(w, reporting, step), reporting)
  {
    match step.event
    case PutRate(day, base, quote, rate) =>
      hide TableOk, Upsert;
      UpsertKeepsTable(w.rows, day, base, quote, rate);
      var w' := Apply(w, reporting, step);
      forall k | k in w'.cache ensures Explained(w'.past, reporting, k, w'.cache[k]) {
        StillExplained(w.past, w'.past, reporting, k, w.cache[k]);
      }
    case Get(_, _, _, _) =>
      GetKeeps(w, reporting, step);
  }

  /** Clocks do not run backwards. */
  predicate InOrder(now: int, run: seq<Step>)
    decreases |run|
  {
    run == [] || (now <= run[0].time && InOrder(run[0].time, run[1..]))
  }

  function Run(w: World, reporting: Currency, run: seq<Step>): World
    decreases |run|
  {
    if run == [] then w else Run(Apply(w, reporting, run[0]), reporting, run[1..])
  }

  lemma {:induction false} RunKeeps(w: World, reporting: Currency, run: seq<Step>)
    requires Inv(w, reporting) && InOrder(w.now, run)
    ensures Inv(Run(w, reporting, run), reporting)
    decreases |run|
  {
    if run != [] {
      StepKeeps(w, reporting, run[0]);
      RunKeeps(Apply(w, reporting, run[0]), reporting, run[1..]);
    }
  }

  lemma AnswerIsRecent(w: World, reporting: Currency, step: Step)
    requires Inv(w, reporting) && w.now <= step.time && step.event.Get?
    ensures var e := step.event;
      var ts := if e.asOf.Some? then e.asOf.value else step.time;
      exists m :: m in Apply(w, reporting, step).past
        && step.time - CACHE_TTL_MS < m.time <= step.time
        && Answer(w, reporting, step) == Rate(m.rows, reporting, e.from, e.to, ts)
        && (e.noCache ==> m.rows == w.rows)
  {
    var e := step.event;
    var ts := if e.asOf.Some? then e.asOf.value else step.time;
    var key := CacheKey(e.from, e.to, Day(ts));
    var here := Moment(step.time, w.rows);
    assert here in Apply(w, reporting, step).past;
    if e.from != e.to && !e.noCache && Hit(w.cache, key, step.time) {
      var m :| m in w.past && Explains(m, reporting, key, w.cache[key]);
      RateDependsOnDay(m.rows, reporting, e.from, e.to, ts, Day(ts) * MS_PER_DAY);
      assert m in Apply(w, reporting, step).past;
    }
  }

  /** Upserts, and nothing that looks rates up. */
  predicate OnlyUpserts(run: seq<Step>) { forall step :: step in run ==> step.event.PutRate? }

  lemma {:induction false} UpsertsLeaveTheCache(w: World, reporting: Currency, run: seq<Step>)
    requires OnlyUpserts(run)
    ensures Run(w, reporting, run).cache == w.cache
    decreases |run|
  {
    if run != [] {
      assert run[0] in run;
      UpsertsLeaveTheCache(Apply(w, reporting, run[0]), reporting, run[1..]);
    }
  }

  /** The instant a lookup asks about. */
  function Instant(step: Step): int
    requires step.event.Get?
  {
    if step.event.asOf.Some? then step.event.asOf.value else step.time
  }

  /** The lookup goes to the table: the caller asks for that, or nothing is cached for its pair and day. */
  predicate AsksTheTable(w: World, step: Step)
    requires step.event.Get?
  {
    step.event.noCache || CacheKey(step.event.from, step.event.to, Day(Instant(step))) !in w.cache
  }

  /**
   What the cache is for: a rate found in the table is answered again for an
   hour, for any instant of the same day and whatever is upserted meanwhile,
   unless the caller asks past the cache; after that the table decides again.
   */
  lemma RatesAreKeptForAnHour(w: World, reporting: Currency, first: Step, upserts: seq<Step>, again: Step)
    requires first.event.Get? && again.event.Get? && OnlyUpserts(upserts) && AsksTheTable(w, first)
    requires first.event.from == again.event.from && first.event.to == again.event.to && again.event.from != again.event.to
    requires Day(Instant(first)) == Day(Instant(again)) && Answer(w, reporting, first).Ok?
    ensures var later := Run(Apply(w, reporting, first), reporting, upserts);
      Answer(later, reporting, again) ==
        if !again.event.noCache && again.time < first.time + 3_600_000 then Answer(w, reporting, first)
        else Rate(later.rows, reporting, again.event.from, again.event.to, Instant(again))
  {
    UpsertsLeaveTheCache(Apply(w, reporting, first), reporting, upserts);
  }

  /** An error is not kept, nor does a lookup touch other pairs' and days' rates while there is room. */
  lemma ErrorsAreNotKept(w: World, reporting: Currency, step: Step, key: CacheKey)
    requires step.event.Get?
    ensures Answer(w, reporting, step).Err? ==> Apply(w, reporting, step).cache == w.cache
    ensures |w.cache| <= 5_000 && key in w.cache && key != CacheKey(step.event.from, step.event.to, Day(Instant(step))) ==>
      key in Apply(w, reporting, step).cache && Apply(w, reporting, step).cache[key] == w.cache[key]
    ensures Apply(w, reporting, step).rows == w.rows
  {
  }

  /**
   Bounded staleness: after any run, whatever a lookup answers, rate or error,
   is what an uncached lookup would have answered against the table as it stood
   at some moment of the last hour; and the cache holds at most 5001 entries.
   */
  lemma StalenessIsBounded(start: int, reporting: Currency, run: seq<Step>, step: Step)
    requires InOrder(start, run) && Run(Start(start), reporting, run).now <= step.time && step.event.Get?
    ensures var w := Run(Start(start), reporting, run);
      var e := step.event;
      var ts := if e.asOf.Some? then e.asOf.value else step.time;
      && |Apply(w, reporting, step).cache| <= 5_001
      && (exists m :: m in Apply(w, reporting, step).past
           && step.time - 3_600_000 < m.time <= step.time
           && Answer(w, reporting, step) == Rate(m.rows, reporting, e.from, e.to, ts)
           && (e.noCache ==> m.rows == w.rows))
  {
    RunKeeps(Start(start), reporting, run);
    AnswerIsRecent(Run(Start(start), reporting, run), reporting, step);
    StepKeeps(Run(Start(start), reporting, run), reporting, step);
  }
}
