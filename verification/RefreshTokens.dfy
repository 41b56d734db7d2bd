/**
 Refresh-token families: issue, rotate, reuse, revoke, purge
 (apps/api/src/domains/auth/auth.service.ts, apps/api/src/domains/auth/auth.repository.ts,
 apps/api/src/workers/lifecycle.worker.ts).  One whole service call, or one
 purge, is one step; a hash stands for the raw token it is the keyed hash of.
 */
module RefreshTokens {
  import OldestFirst
  import opened Wrappers

  type Id = nat
  type Family = nat
  type Hash = nat

  datatype Token = Token(
    org: nat, user: nat, family: Family, session: nat, hash: Hash,
    createdAt: int, expiresAt: int,
    revokedAt: Option<int>, replacedBy: Option<Id>)

  type Table = map<Id, Token>

  predicate Live(t: Token) { t.revokedAt.None? }

  /** updateMany on the unrevoked rows of a family. */
  function RevokeFamily(tokens: Table, family: Family, now: int): Table {
    map id | id in tokens ::
      if tokens[id].family == family && Live(tokens[id]) then tokens[id].(revokedAt := Some(now)) else tokens[id]
  }

  /** updateMany on the unrevoked rows of one user's session. */
  function RevokeSession(tokens: Table, user: nat, session: nat, now: int): Table {
    map id | id in tokens ::
      if tokens[id].user == user && tokens[id].session == session && Live(tokens[id]) then
        tokens[id].(revokedAt := Some(now))
      else tokens[id]
  }

  /** updateMany on the unrevoked rows of a user. */
  function RevokeUser(tokens: Table, user: nat, now: int): Table {
    map id | id in tokens ::
      if tokens[id].user == user && Live(tokens[id]) then tokens[id].(revokedAt := Some(now)) else tokens[id]
  }

  /** The lifecycle worker's deleteMany condition. */
  predicate Purgeable(t: Token, cutoff: int) {
    t.expiresAt < cutoff || (t.revokedAt.Some? && t.revokedAt.value < cutoff)
  }

  function Purge(tokens: Table, cutoff: int): Table {
    map id | id in tokens && !Purgeable(tokens[id], cutoff) :: tokens[id]
  }

  /** rotateRefreshToken: the successor inherits org, family and session; the predecessor points to it. */
  function Rotate(tokens: Table, oldId: Id, newId: Id, newHash: Hash, now: int, ttl: nat): Table
    requires oldId in tokens
  {
    var t := tokens[oldId];
    tokens[newId := Token(t.org, t.user, t.family, t.session, newHash, now, now + ttl, None, None)]
          [oldId := t.(revokedAt := Some(now), replacedBy := Some(newId))]
  }

  predicate Holds(tokens: Table, id: Id, hash: Hash) { id in tokens && tokens[id].hash == hash }

  ghost predicate Known(tokens: Table, hash: Hash) { exists id :: Holds(tokens, id, hash) }

  ghost function Find(tokens: Table, hash: Hash): (id: Id)
    requires Known(tokens, hash)
    ensures Holds(tokens, id, hash)
  {
    var id :| Holds(tokens, id, hash);
    id
  }

  datatype AuthError = NotFound | Reused | Expired | NoUser

  /** What a refresh answers. */
  ghost function RefreshAnswer(tokens: Table, hash: Hash, userExists: bool, now: int): Result<Id, AuthError> {
    if !Known(tokens, hash) then Err(NotFound)
    else
      var t := tokens[Find(tokens, hash)];
      if !Live(t) then Err(Reused)
      else if t.expiresAt <= now then Err(Expired)
      else if !userExists then Err(NoUser)
      else Ok(Find(tokens, hash))
  }

  /** What a refresh does: rotate on success, revoke the family on reuse, nothing otherwise. */
  ghost function AfterRefresh(
    tokens: Table, hash: Hash, newId: Id, newHash: Hash, userExists: bool, now: int, ttl: nat): Table
  {
    match RefreshAnswer(tokens, hash, userExists, now)
    case Ok(oldId) => Rotate(tokens, oldId, newId, newHash, now, ttl)
    case Err(Reused) => RevokeFamily(tokens, tokens[Find(tokens, hash)].family, now)
    case Err(_) => tokens
  }

  // ---------------------------------------------------------------- the service

  predicate UniqueHashes(tokens: Table) {
    forall a, b :: a in tokens && b in tokens && a != b ==> tokens[a].hash != tokens[b].hash
  }

  class AuthStore {
    var tokens: Table

    constructor ()
      ensures tokens == map[]
    {
      tokens := map[];
    }

    /** findRefreshTokenByRaw, on the unique index over the hashes. */
    method FindByHash(hash: Hash) returns (found: Option<Id>)
      requires UniqueHashes(tokens)
      ensures found.None? <==> !Known(tokens, hash)
      ensures found.Some? ==> Known(tokens, hash) && found.value == Find(tokens, hash)
    {
      var ids := tokens.Keys;
      found := None;
      while ids != {}
        invariant ids <= tokens.Keys
        invariant found.None? ==> forall id :: id in tokens && id !in ids ==> tokens[id].hash != hash
        invariant found.Some? ==> Holds(tokens, found.value, hash)
        decreases ids
      {
        var id :| id in ids;
        ids := ids - {id};
        if tokens[id].hash == hash {
          found := Some(id);
        }
      }
      if found.Some? {
        assert Known(tokens, hash);
      }
    }

    method CreateRefreshToken(id: Id, org: nat, user: nat, family: Family, session: nat, hash: Hash, now: int, ttl: nat)
      requires id !in tokens
      modifies this
      ensures tokens == old(tokens)[id := Token(org, user, family, session, hash, now, now + ttl, None, None)]
    {
      tokens := tokens[id := Token(org, user, family, session, hash, now, now + ttl, None, None)];
    }

    method Refresh(hash: Hash, newId: Id, newHash: Hash, userExists: bool, now: int, ttl: nat)
      returns (r: Result<Id, AuthError>)
      requires UniqueHashes(tokens) && newId !in tokens
      modifies this
      ensures tokens == AfterRefresh(old(tokens), hash, newId, newHash, userExists, now, ttl)
      ensures RefreshAnswer(old(tokens), hash, userExists, now).Ok? ==> r == Ok(newId)
      ensures RefreshAnswer(old(tokens), hash, userExists, now).Err? ==>
        r == RefreshAnswer(old(tokens), hash, userExists, now)
    {
      var found := FindByHash(hash);
      if found.None? {
        return Err(NotFound);
      }
      var stored := tokens[found.value];
      if stored.revokedAt.Some? {
        tokens := RevokeFamily(tokens, stored.family, now);
        return Err(Reused);
      }
      if stored.expiresAt <= now {
        return Err(Expired);
      }
      if !userExists {
        return Err(NoUser);
      }
      CreateRefreshToken(newId, stored.org, stored.user, stored.family, stored.session, newHash, now, ttl);
      tokens := tokens[found.value := stored.(revokedAt := Some(now), replacedBy := Some(newId))];
      r := Ok(newId);
    }

    method Logout(hash: Hash, now: int)
      requires UniqueHashes(tokens)
      modifies this
      ensures tokens == if Known(old(tokens), hash)
        then RevokeFamily(old(tokens), old(tokens)[Find(old(tokens), hash)].family, now) else old(tokens)
    {
      var found := FindByHash(hash);
      if found.Some? {
        tokens := RevokeFamily(tokens, tokens[found.value].family, now);
      }
    }
  }

  // ---------------------------------------------------------------- runs

  /** The table, the clock, and what fresh random identifiers must avoid. */
  datatype Db = Db(
    tokens: Table,
    clock: int,
    born: map<Id, nat>,      // creation rank of every row ever created
    families: set<Family>,   // every family ever started
    hashes: set<Hash>,       // every hash ever stored
    spent: set<Hash>)        // every token ever redeemed

  datatype Event =
    | Issue(id: Id, org: nat, user: nat, family: Family, hash: Hash, ttl: nat)
    | Refresh(hash: Hash, newId: Id, newHash: Hash, userExists: bool, ttl: nat)
    | Logout(hash: Hash)
    | EndSession(user: nat, session: nat)
    | EndUser(user: nat)
    | PurgeOld(grace: nat)

  datatype Step = Step(now: int, event: Event)

  predicate Enabled(db: Db, s: Step) {
    && db.clock <= s.now
    && match s.event
       case Issue(id, _, _, family, hash, _) => id !in db.born && family !in db.families && hash !in db.hashes
       case Refresh(_, newId, newHash, _, _) => newId !in db.born && newHash !in db.hashes
       case _ => true
  }

  /** The database after a login, issueSessionForUser or toggleScope: a new family, and the session is the family. */
  function Issued(db: Db, e: Event, now: int): Db
    requires e.Issue?
  {
    Db(db.tokens[e.id := Token(e.org, e.user, e.family, e.family, e.hash, now, now + e.ttl, None, None)], now,
       db.born[e.id := |db.born|], db.families + {e.family}, db.hashes + {e.hash}, db.spent)
  }

  /** The database after a successful refresh of oldId. */
  function Rotated(db: Db, oldId: Id, newId: Id, newHash: Hash, now: int, ttl: nat): Db
    requires oldId in db.tokens
  {
    Db(Rotate(db.tokens, oldId, newId, newHash, now, ttl), now, db.born[newId := |db.born|],
       db.families, db.hashes + {newHash}, db.spent + {db.tokens[oldId].hash})
  }

  ghost function Apply(db: Db, s: Step): Db {
    var tokens, now := db.tokens, s.now;
    match s.event
    case Issue(_, _, _, _, _, _) => Issued(db, s.event, now)
    case Refresh(hash, newId, newHash, userExists, ttl) =>
      var after := AfterRefresh(tokens, hash, newId, newHash, userExists, now, ttl);
      if RefreshAnswer(tokens, hash, userExists, now).Ok? then
        Rotated(db, Find(tokens, hash), newId, newHash, now, ttl)
      else db.(tokens := after, clock := now)
    case Logout(hash) =>
      db.(tokens := if Known(tokens, hash) then RevokeFamily(tokens, tokens[Find(tokens, hash)].family, now) else tokens,
          clock := now)
    case EndSession(user, session) => db.(tokens := RevokeSession(tokens, user, session, now), clock := now)
    case EndUser(user) => db.(tokens := RevokeUser(tokens, user, now), clock := now)
    case PurgeOld(grace) => db.(tokens := Purge(tokens, now - grace), clock := now)
  }

  function Init(now: int): Db { Db(map[], now, map[], {}, {}, {}) }

  // ---------------------------------------------------------------- the invariant

  /** Identifiers are recorded, times are in order. */
  predicate Recorded(db: Db) {
    && (forall id :: id in db.born ==> db.born[id] < |db.born|)
    && (forall id :: id in db.tokens ==>
         && id in db.born
         && db.tokens[id].family in db.families && db.tokens[id].hash in db.hashes
         && db.tokens[id].createdAt <= db.clock && db.tokens[id].createdAt <= db.tokens[id].expiresAt
         && (db.tokens[id].revokedAt.Some? ==> db.tokens[id].createdAt <= db.tokens[id].revokedAt.value <= db.clock))
  }

  /** A family belongs to one user, one org and one session, and at most one of its tokens is unrevoked. */
  predicate Families(tokens: Table) {
    && (forall id :: id in tokens ==> tokens[id].session == tokens[id].family)
    && (forall a, b :: a in tokens && b in tokens && tokens[a].family == tokens[b].family ==>
         && tokens[a].org == tokens[b].org && tokens[a].user == tokens[b].user
         && (Live(tokens[a]) && Live(tokens[b]) ==> a == b))
  }

  /** Replacement leads to an existing, later row of the same family, created when the replaced one was revoked. */
  predicate Chains(db: Db) {
    forall id :: id in db.tokens && db.tokens[id].replacedBy.Some? ==>
      var next := db.tokens[id].replacedBy.value;
      && next in db.tokens && id in db.born && next in db.born && db.born[id] < db.born[next]
      && db.tokens[next].family == db.tokens[id].family
      && db.tokens[id].revokedAt == Some(db.tokens[next].createdAt)
  }

  /** A redeemed token is never unrevoked again. */
  predicate Spent(db: Db) {
    && db.spent <= db.hashes
    && forall id :: id in db.tokens && db.tokens[id].hash in db.spent ==> !Live(db.tokens[id])
  }

  predicate Inv(db: Db) {
    Recorded(db) && UniqueHashes(db.tokens) && Families(db.tokens) && Chains(db) && Spent(db)
  }

  /** The rows a step only revokes: same rows, nothing changed but unrevoked turned revoked now. */
  predicate OnlyRevokes(before: Table, after: Table, now: int) {
    && after.Keys == before.Keys
    && forall id :: id in before ==>
         after[id] == before[id] || (Live(before[id]) && after[id] == before[id].(revokedAt := Some(now)))
  }

  lemma RevokingKeeps(db: Db, after: Table, now: int)
    requires Inv(db) && db.clock <= now && OnlyRevokes(db.tokens, after, now)
    ensures Inv(db.(tokens := after, clock := now))
  {
    RevokingKeepsFamilies(db.tokens, after, now);
    RevokingKeepsChains(db, after, now);
    RevokingKeepsRecorded(db, after, now);
    RevokingKeepsHashes(db, after, now);
    hide Families, Chains, Recorded, UniqueHashes, Spent, OnlyRevokes;
  }

  lemma RevokingKeepsRecorded(db: Db, after: Table, now: int)
    requires Recorded(db) && db.clock <= now && OnlyRevokes(db.tokens, after, now)
    ensures Recorded(db.(tokens := after, clock := now))
  {
  }

  lemma RevokingKeepsHashes(db: Db, after: Table, now: int)
    requires UniqueHashes(db.tokens) && Spent(db) && OnlyRevokes(db.tokens, after, now)
    ensures UniqueHashes(after) && Spent(db.(tokens := after, clock := now))
  {
  }

  lemma RevokingKeepsFamilies(before: Table, after: Table, now: int)
    requires Families(before) && OnlyRevokes(before, after, now)
    ensures Families(after)
  {
  }

  lemma RevokingKeepsChains(db: Db, after: Table, now: int)
    requires Chains(db) && OnlyRevokes(db.tokens, after, now)
    ensures Chains(db.(tokens := after, clock := now))
  {
  }

  predicate MayIssue(db: Db, e: Event, now: int) {
    e.Issue? && db.clock <= now && e.id !in db.born && e.family !in db.families && e.hash !in db.hashes
  }

  lemma IssueKeepsRecorded(db: Db, e: Event, now: int)
    requires Recorded(db) && MayIssue(db, e, now)
    ensures Recorded(Issued(db, e, now))
  {
    BornGrows(db.born, e.id);
  }

  lemma IssueKeepsFamilies(db: Db, e: Event, now: int)
    requires Recorded(db) && Families(db.tokens) && MayIssue(db, e, now)
    ensures Families(Issued(db, e, now).tokens)
  {
  }

  lemma IssueKeepsHashes(db: Db, e: Event, now: int)
    requires Recorded(db) && UniqueHashes(db.tokens) && Spent(db) && MayIssue(db, e, now)
    ensures UniqueHashes(Issued(db, e, now).tokens) && Spent(Issued(db, e, now))
  {
  }

  lemma IssueKeepsChains(db: Db, e: Event, now: int)
    requires Recorded(db) && Chains(db) && MayIssue(db, e, now)
    ensures Chains(Issued(db, e, now))
  {
  }

  lemma IssueKeeps(db: Db, e: Event, now: int)
    requires Inv(db) && MayIssue(db, e, now)
    ensures Inv(Issued(db, e, now))
  {
    hide Recorded, Families, Chains, Spent, UniqueHashes, Issued;
    IssueKeepsRecorded(db, e, now);
    IssueKeepsFamilies(db, e, now);
    IssueKeepsHashes(db, e, now);
    IssueKeepsChains(db, e, now);
  }

  lemma BornGrows(born: map<Id, nat>, id: Id)
    requires id !in born
    ensures |born[id := |born|]| == |born| + 1
  {
    assert born[id := |born|].Keys == born.Keys + {id};
    assert |born.Keys| == |born|;
  }

  predicate MayRotate(db: Db, oldId: Id, newId: Id, newHash: Hash, now: int) {
    && db.clock <= now && newId !in db.born && newHash !in db.hashes
    && oldId in db.tokens && Live(db.tokens[oldId])
  }

  lemma RotateKeepsRecorded(db: Db, oldId: Id, newId: Id, newHash: Hash, now: int, ttl: nat)
    requires Recorded(db) && MayRotate(db, oldId, newId, newHash, now)
    ensures Recorded(Rotated(db, oldId, newId, newHash, now, ttl))
  {
    BornGrows(db.born, newId);
  }

  lemma RotateKeepsFamilies(db: Db, oldId: Id, newId: Id, newHash: Hash, now: int, ttl: nat)
    requires Recorded(db) && Families(db.tokens) && MayRotate(db, oldId, newId, newHash, now)
    ensures Families(Rotated(db, oldId, newId, newHash, now, ttl).tokens)
  {
    var after := Rotated(db, oldId, newId, newHash, now, ttl).tokens;
    assert newId !in db.tokens;
    forall id | id in after
      ensures after[id].session == after[id].family
      ensures after[id].family == db.tokens[oldId].family ==>
        && after[id].org == db.tokens[oldId].org && after[id].user == db.tokens[oldId].user
        && (Live(after[id]) ==> id == newId)
      ensures after[id].family != db.tokens[oldId].family ==> id in db.tokens && after[id] == db.tokens[id]
    {
    }
    hide Rotated, MayRotate, Recorded;
  }

  lemma RotateKeepsHashes(db: Db, oldId: Id, newId: Id, newHash: Hash, now: int, ttl: nat)
    requires Recorded(db) && UniqueHashes(db.tokens) && Spent(db) && MayRotate(db, oldId, newId, newHash, now)
    ensures UniqueHashes(Rotated(db, oldId, newId, newHash, now, ttl).tokens)
    ensures Spent(Rotated(db, oldId, newId, newHash, now, ttl))
  {
  }

  lemma RotateKeepsChains(db: Db, oldId: Id, newId: Id, newHash: Hash, now: int, ttl: nat)
    requires Recorded(db) && Chains(db) && MayRotate(db, oldId, newId, newHash, now)
    ensures Chains(Rotated(db, oldId, newId, newHash, now, ttl))
  {
    BornGrows(db.born, newId);
  }

  lemma RotateKeeps(db: Db, oldId: Id, newId: Id, newHash: Hash, now: int, ttl: nat)
    requires Inv(db) && MayRotate(db, oldId, newId, newHash, now)
    ensures Inv(Rotated(db, oldId, newId, newHash, now, ttl))
  {
    hide Recorded, Families, Chains, Spent, UniqueHashes;
    RotateKeepsRecorded(db, oldId, newId, newHash, now, ttl);
    RotateKeepsFamilies(db, oldId, newId, newHash, now, ttl);
    RotateKeepsHashes(db, oldId, newId, newHash, now, ttl);
    RotateKeepsChains(db, oldId, newId, newHash, now, ttl);
  }

  lemma PurgeKeeps(db: Db, cutoff: int, now: int)
    requires Inv(db) && db.clock <= now
    ensures Inv(db.(tokens := Purge(db.tokens, cutoff), clock := now))
  {
  }

  lemma RefreshKeeps(db: Db, s: Step)
    requires Inv(db) && Enabled(db, s) && s.event.Refresh?
    ensures Inv(Apply(db, s))
  {
    hide Inv, RevokeFamily, Rotated, Rotate;
    var tokens, now, hash := db.tokens, s.now, s.event.hash;
    match RefreshAnswer(tokens, hash, s.event.userExists, now)
    case Ok(oldId) => RotateKeeps(db, oldId, s.event.newId, s.event.newHash, now, s.event.ttl);
    case Err(Reused) => RevokeFamilyKeeps(db, tokens[Find(tokens, hash)].family, now);
    case Err(_) => RevokingKeeps(db, tokens, now);
  }

  lemma RevokeFamilyKeeps(db: Db, family: Family, now: int)
    requires Inv(db) && db.clock <= now
    ensures Inv(db.(tokens := RevokeFamily(db.tokens, family, now), clock := now))
  {
    hide Inv;
    RevokingKeeps(db, RevokeFamily(db.tokens, family, now), now);
  }

  lemma StepKeeps(db: Db, s: Step)
    requires Inv(db) && Enabled(db, s)
    ensures Inv(Apply(db, s))
  {
    hide Inv, RevokeFamily;
    var tokens, now := db.tokens, s.now;
    match s.event
    case Issue(_, _, _, _, _, _) => IssueKeeps(db, s.event, now);
    case Refresh(_, _, _, _, _) => RefreshKeeps(db, s);
    case Logout(hash) =>
      if Known(tokens, hash) {
        RevokeFamilyKeeps(db, tokens[Find(tokens, hash)].family, now);
      } else {
        RevokingKeeps(db, tokens, now);
      }
    case EndSession(user, session) => RevokingKeeps(db, RevokeSession(tokens, user, session, now), now);
    case EndUser(user) => RevokingKeeps(db, RevokeUser(tokens, user, now), now);
    case PurgeOld(grace) => PurgeKeeps(db, now - grace, now);
  }

  lemma ChainsOf(db: Db)
    requires Inv(db)
    ensures Chains(db) && Families(db.tokens) && Recorded(db) && Spent(db)
  {
  }

  ghost predicate Legal(db: Db, run: seq<Step>)
    decreases |run|
  {
    run == [] || (Enabled(db, run[0]) && Legal(Apply(db, run[0]), run[1..]))
  }

  ghost function Run(db: Db, run: seq<Step>): Db
    requires Legal(db, run)
    decreases |run|
  {
    if run == [] then db else Run(Apply(db, run[0]), run[1..])
  }

  lemma {:induction false} RunKeeps(db: Db, run: seq<Step>)
    requires Inv(db) && Legal(db, run)
    ensures Inv(Run(db, run))
    decreases |run|
  {
    if run != [] {
      StepKeeps(db, run[0]);
      RunKeeps(Apply(db, run[0]), run[1..]);
    }
  }

  /**
   Over every run: at most one unrevoked token per family, one user, org and
   session for all of a family's rows, and a replacement chain that never
   dangles, never leaves the family and only leads to later rows, so that it
   cannot return to where it started; purging included.
   */
  lemma FamiliesAreSound(now: int, run: seq<Step>)
    requires Legal(Init(now), run)
    ensures var db := Run(Init(now), run);
      && (forall a, b :: a in db.tokens && b in db.tokens && db.tokens[a].family == db.tokens[b].family ==>
           && db.tokens[a].org == db.tokens[b].org && db.tokens[a].user == db.tokens[b].user
           && db.tokens[a].session == db.tokens[b].session
           && (Live(db.tokens[a]) && Live(db.tokens[b]) ==> a == b))
      && (forall id :: id in db.tokens && db.tokens[id].replacedBy.Some? ==>
           var next := db.tokens[id].replacedBy.value;
           && next in db.tokens && id in db.born && next in db.born && db.born[id] < db.born[next]
           && db.tokens[next].family == db.tokens[id].family && !Live(db.tokens[id]))
  {
    RunKeeps(Init(now), run);
    ChainsOf(Run(Init(now), run));
    hide Run, Legal, Recorded, UniqueHashes, Spent;
  }

  // ---------------------------------------------------------------- death, single use, purge

  /** A family that was started and has no unrevoked token. */
  predicate Dead(db: Db, family: Family) {
    family in db.families && forall id :: id in db.tokens && db.tokens[id].family == family ==> !Live(db.tokens[id])
  }

  lemma DeathIsPermanent(db: Db, s: Step, family: Family)
    requires Inv(db) && Enabled(db, s) && Dead(db, family)
    ensures Dead(Apply(db, s), family)
  {
    hide Recorded, Families, Chains, Spent, UniqueHashes;
  }

  lemma {:induction false} DeathIsForEver(db: Db, run: seq<Step>, family: Family)
    requires Inv(db) && Legal(db, run) && Dead(db, family)
    ensures Dead(Run(db, run), family)
    decreases |run|
  {
    if run != [] {
      DeathIsPermanent(db, run[0], family);
      StepKeeps(db, run[0]);
      DeathIsForEver(Apply(db, run[0]), run[1..], family);
    }
  }

  lemma FoundIsUnique(tokens: Table, hash: Hash, id: Id)
    requires UniqueHashes(tokens) && Holds(tokens, id, hash)
    ensures Known(tokens, hash) && Find(tokens, hash) == id
  {
  }

  /**
   Reuse is fatal: presenting a revoked token answers with an error and leaves
   its family without an unrevoked token for ever, whatever happens afterwards;
   so does logging out with any of its tokens.
   */
  lemma ReuseKillsTheFamily(db: Db, s: Step, id: Id, run: seq<Step>)
    requires Inv(db) && Enabled(db, s) && id in db.tokens && Legal(Apply(db, s), run)
    requires
      || (s.event.Refresh? && s.event.hash == db.tokens[id].hash && !Live(db.tokens[id]))
      || (s.event.Logout? && s.event.hash == db.tokens[id].hash)
    ensures s.event.Refresh? ==> RefreshAnswer(db.tokens, s.event.hash, s.event.userExists, s.now) == Err(Reused)
    ensures Dead(Run(Apply(db, s), run), db.tokens[id].family)
  {
    FoundIsUnique(db.tokens, s.event.hash, id);
    assert Dead(Apply(db, s), db.tokens[id].family);
    StepKeeps(db, s);
    DeathIsForEver(Apply(db, s), run, db.tokens[id].family);
  }

  lemma {:induction false} SpentGrows(db: Db, run: seq<Step>, hash: Hash)
    requires Legal(db, run) && hash in db.spent
    ensures hash in Run(db, run).spent
    decreases |run|
  {
    if run != [] {
      SpentGrows(Apply(db, run[0]), run[1..], hash);
    }
  }

  /** A token is redeemed at most once: after a successful refresh, no later presentation in any run succeeds. */
  lemma TokensAreSingleUse(db: Db, s: Step, run: seq<Step>, userExists: bool, now: int)
    requires Inv(db) && Enabled(db, s) && s.event.Refresh? && Legal(Apply(db, s), run)
    requires RefreshAnswer(db.tokens, s.event.hash, s.event.userExists, s.now).Ok?
    ensures RefreshAnswer(Run(Apply(db, s), run).tokens, s.event.hash, userExists, now).Err?
  {
    StepKeeps(db, s);
    RunKeeps(Apply(db, s), run);
    SpentGrows(Apply(db, s), run, s.event.hash);
    ChainsOf(Run(Apply(db, s), run));
  }

  /** A successful refresh moves the family's one unrevoked token on to the new row. */
  lemma RefreshMovesTheLiveToken(db: Db, s: Step)
    requires Inv(db) && Enabled(db, s) && s.event.Refresh?
    requires RefreshAnswer(db.tokens, s.event.hash, s.event.userExists, s.now).Ok?
    ensures var oldId := RefreshAnswer(db.tokens, s.event.hash, s.event.userExists, s.now).value;
      var after := Apply(db, s).tokens;
      && oldId in db.tokens && oldId in after && s.event.newId in after
      && after[oldId] == db.tokens[oldId].(revokedAt := Some(s.now), replacedBy := Some(s.event.newId))
      && after[s.event.newId].hash == s.event.newHash && after[s.event.newId].expiresAt == s.now + s.event.ttl
      && (forall id :: id in after && after[id].family == db.tokens[oldId].family ==>
           (Live(after[id]) <==> id == s.event.newId))
  {
    ChainsOf(db);
  }

  /** A purge deletes only rows that are expired or revoked before the cutoff; the rest stay as they are. */
  lemma PurgeSparesUsableTokens(db: Db, s: Step, id: Id, now: int)
    requires Enabled(db, s) && s.event.PurgeOld? && id in db.tokens && now == s.now
    ensures id in Apply(db, s).tokens <==> !Purgeable(db.tokens[id], now - s.event.grace)
    ensures Live(db.tokens[id]) && now < db.tokens[id].expiresAt ==>
      id in Apply(db, s).tokens && Apply(db, s).tokens[id] == db.tokens[id]
  {
  }

  // ---------------------------------------------------------------- what one event does to one row

  /** An unrevoked row is revoked now, and nothing else of it changes. */
  predicate JustRevoked(before: Token, after: Token, now: int) {
    && before.revokedAt == None && after.revokedAt == Some(now)
    && after.org == before.org && after.user == before.user
    && after.family == before.family && after.session == before.session && after.hash == before.hash
    && after.createdAt == before.createdAt && after.expiresAt == before.expiresAt
    && after.replacedBy == before.replacedBy
  }

  /** The rows that `hit` singles out are revoked now if they were not yet; every other row is as it was, and none comes or goes. */
  predicate RevokesOnly(before: Table, after: Table, now: int, hit: Token -> bool) {
    && after.Keys == before.Keys
    && forall id :: id in before ==>
         if hit(before[id]) && before[id].revokedAt == None then JustRevoked(before[id], after[id], now)
         else after[id] == before[id]
  }

  /** Whom a refresh refuses, and why: the revoked, then the expired, then those without a user; and a hash nobody holds. */
  lemma WhomARefreshRefuses(tokens: Table, hash: Hash, h: Id, userExists: bool, now: int)
    requires UniqueHashes(tokens)
    ensures var r := RefreshAnswer(tokens, hash, userExists, now);
      && ((forall id :: id in tokens ==> tokens[id].hash != hash) <==> r == Err(NotFound))
      && (h in tokens && tokens[h].hash == hash ==>
           && (r == Err(Reused) <==> tokens[h].revokedAt.Some?)
           && (r == Err(Expired) <==> tokens[h].revokedAt.None? && tokens[h].expiresAt <= now)
           && (r == Err(NoUser) <==> tokens[h].revokedAt.None? && now < tokens[h].expiresAt && !userExists)
           && (r == Ok(h) <==> tokens[h].revokedAt.None? && now < tokens[h].expiresAt && userExists)
           && (r.Ok? ==> r == Ok(h)))
  {
    if Known(tokens, hash) {
      assert Holds(tokens, Find(tokens, hash), hash);
    } else {
      assert forall id :: id in tokens ==> !Holds(tokens, id, hash);
    }
    if Holds(tokens, h, hash) {
      FoundIsUnique(tokens, hash, h);
    }
  }

  /**
   What presenting a stored token does to the whole table.  Reuse, and logging
   out, revoke exactly the unrevoked rows of the token's own family; any other
   refusal changes nothing; and a success touches two rows only, the new one,
   which has the old one's owner, family and session, and the old one.
   */
  lemma OtherFamiliesStay(db: Db, s: Step, h: Id)
    requires Inv(db) && Enabled(db, s) && h in db.tokens
    requires (s.event.Refresh? || s.event.Logout?) && s.event.hash == db.tokens[h].hash
    ensures var before, after, t := db.tokens, Apply(db, s).tokens, db.tokens[h];
      var r := if s.event.Refresh? then RefreshAnswer(before, s.event.hash, s.event.userExists, s.now) else Err(Reused);
      && (r == Err(Reused) ==> RevokesOnly(before, after, s.now, (x: Token) => x.family == t.family))
      && (r == Err(Expired) || r == Err(NoUser) ==> after == before)
      && (r.Ok? ==>
           && s.event.newId !in before
           && after == before[h := t.(revokedAt := Some(s.now), replacedBy := Some(s.event.newId))]
                             [s.event.newId := Token(t.org, t.user, t.family, t.session, s.event.newHash,
                                                     s.now, s.now + s.event.ttl, None, None)])
  {
    FoundIsUnique(db.tokens, s.event.hash, h);
    BornAreRecorded(db);
    FamilyIsRevoked(db.tokens, db.tokens[h].family, s.now);
    hide Inv, UniqueHashes, Find, Known, RevokesOnly, RevokeFamily;
  }

  lemma FamilyIsRevoked(tokens: Table, family: Family, now: int)
    ensures RevokesOnly(tokens, RevokeFamily(tokens, family, now), now, (x: Token) => x.family == family)
  {
  }

  lemma BornAreRecorded(db: Db)
    requires Inv(db)
    ensures forall id :: id in db.tokens ==> id in db.born
  {
  }

  /** Ending a session revokes its rows of that user, ending all of a user's sessions every row of the user. */
  lemma RevocationsHitTheirRows(db: Db, s: Step)
    ensures s.event.EndSession? ==>
      RevokesOnly(db.tokens, Apply(db, s).tokens, s.now, (x: Token) => x.user == s.event.user && x.session == s.event.session)
    ensures s.event.EndUser? ==>
      RevokesOnly(db.tokens, Apply(db, s).tokens, s.now, (x: Token) => x.user == s.event.user)
  {
  }

  /** The service's calls are the steps of a run: their contracts say what the step does to the table. */
  lemma CallsAreSteps(db: Db, now: int, hash: Hash, newId: Id, newHash: Hash, userExists: bool, ttl: nat)
    ensures Apply(db, Step(now, Refresh(hash, newId, newHash, userExists, ttl))).tokens
      == AfterRefresh(db.tokens, hash, newId, newHash, userExists, now, ttl)
    ensures Apply(db, Step(now, Logout(hash))).tokens ==
      if Known(db.tokens, hash) then RevokeFamily(db.tokens, db.tokens[Find(db.tokens, hash)].family, now) else db.tokens
  {
  }

  /** Anyone may present any hash, end any session and purge at any time; only new identifiers must be new. */
  lemma WhatIsPossible(db: Db, s: Step)
    requires db.clock <= s.now
    ensures !s.event.Issue? && !s.event.Refresh? ==> Enabled(db, s)
    ensures s.event.Refresh? && s.event.newId !in db.born && s.event.newHash !in db.hashes ==> Enabled(db, s)
    ensures s.event.Issue? && s.event.id !in db.born && s.event.family !in db.families && s.event.hash !in db.hashes ==>
      Enabled(db, s)
  {
  }

  /** A hash that nobody holds changes nothing, and a login adds one row. */
  lemma UnknownHashesChangeNothing(db: Db, s: Step)
    requires (s.event.Refresh? || s.event.Logout?) && forall id :: id in db.tokens ==> db.tokens[id].hash != s.event.hash
    ensures Apply(db, s).tokens == db.tokens
  {
    assert !Known(db.tokens, s.event.hash);
  }

  lemma LoginsAddOneRow(db: Db, s: Step)
    requires Recorded(db) && Enabled(db, s) && s.event.Issue?
    ensures var e := s.event;
      && e.id !in db.tokens
      && Apply(db, s).tokens ==
           db.tokens[e.id := Token(e.org, e.user, e.family, e.family, e.hash, s.now, s.now + e.ttl, None, None)]
  {
  }

  /** A purge deletes the rows that expired, or were revoked, before the grace period; the rest stay as they are. */
  lemma WhatAPurgeDeletes(db: Db, s: Step, id: Id)
    requires Enabled(db, s) && s.event.PurgeOld?
    ensures var before, after, cutoff := db.tokens, Apply(db, s).tokens, s.now - s.event.grace;
      && (id in after <==>
           && id in before && cutoff <= before[id].expiresAt
           && (before[id].revokedAt.Some? ==> cutoff <= before[id].revokedAt.value))
      && (id in after ==> after[id] == before[id])
  {
  }

  // ---------------------------------------------------------------- the session list

  datatype Session = Session(session: nat, org: nat, createdAt: int, expiresAt: int)

  function Summary(t: Token): Session { Session(t.session, t.org, t.createdAt, t.expiresAt) }

  /** The session query: the user's unrevoked, unexpired tokens, newest first; `ids` are the rows it returns. */
  ghost predicate IsActiveList(tokens: Table, user: nat, now: int, ids: seq<Id>, rows: seq<Token>) {
    && |rows| == |ids|
    && (forall i :: 0 <= i < |ids| ==> ids[i] in tokens && rows[i] == tokens[ids[i]])
    && (forall i, j :: 0 <= i < j < |ids| ==> ids[i] != ids[j] && rows[j].createdAt <= rows[i].createdAt)
    && forall id :: id in ids <==>
         id in tokens && tokens[id].user == user && Live(tokens[id]) && now < tokens[id].expiresAt
  }

  predicate FirstOfSession(rows: seq<Token>, i: nat)
    requires i < |rows|
  {
    forall j :: 0 <= j < i ==> rows[j].session != rows[i].session
  }

  /** One entry per session, for its first row, in order of first appearance. */
  function Collapse(rows: seq<Token>): seq<Session> {
    if rows == [] then []
    else
      var n := |rows| - 1;
      Collapse(rows[..n]) + (if FirstOfSession(rows, n) then [Summary(rows[n])] else [])
  }

  method ListActiveSessions(rows: seq<Token>) returns (list: seq<Session>)
    ensures list == Collapse(rows)
  {
    list := [];
    var bySession: set<nat> := {};
    for k := 0 to |rows|
      invariant forall s :: s in bySession <==> exists i :: 0 <= i < k && rows[i].session == s
      invariant list == Collapse(rows[..k])
    {
      assert rows[..k + 1][..k] == rows[..k];
      assert FirstOfSession(rows[..k + 1], k) <==> rows[k].session !in bySession;
      if rows[k].session !in bySession {
        bySession := bySession + {rows[k].session};
        list := list + [Summary(rows[k])];
      }
    }
    assert rows[..|rows|] == rows;
  }

  /** What is listed is the entry of its session's first row, */
  lemma {:induction false} ListedIsFirst(rows: seq<Token>, k: nat) returns (i: nat)
    requires k < |Collapse(rows)|
    ensures i < |rows| && (forall j :: 0 <= j < i ==> rows[j].session != rows[i].session)
    ensures Collapse(rows)[k] == Session(rows[i].session, rows[i].org, rows[i].createdAt, rows[i].expiresAt)
  {
    var n := |rows| - 1;
    if k < |Collapse(rows[..n])| {
      i := ListedIsFirst(rows[..n], k);
      assert forall j :: 0 <= j < n ==> rows[..n][j] == rows[j];
    } else {
      i := n;
    }
  }

  /** every row's session is listed, */
  lemma {:induction false} SessionIsListed(rows: seq<Token>, i: nat) returns (k: nat)
    requires i < |rows|
    ensures k < |Collapse(rows)| && Collapse(rows)[k].session == rows[i].session
  {
    var n := |rows| - 1;
    if i < n {
      k := SessionIsListed(rows[..n], i);
    } else if FirstOfSession(rows, n) {
      k := |Collapse(rows)| - 1;
    } else {
      var j :| 0 <= j < n && rows[j].session == rows[n].session;
      k := SessionIsListed(rows[..n], j);
    }
  }

  /** and none twice. */
  lemma {:induction false} ListedOnce(rows: seq<Token>, k: nat, l: nat)
    requires k < l < |Collapse(rows)|
    ensures Collapse(rows)[k].session != Collapse(rows)[l].session
  {
    var n := |rows| - 1;
    if l < |Collapse(rows[..n])| {
      ListedOnce(rows[..n], k, l);
    } else {
      var i := ListedIsFirst(rows[..n], k);
      assert rows[..n][i] == rows[i];
    }
  }

  /** The entry is that of the first row of a session. */
  predicate Heads(rows: seq<Token>, i: nat, e: Session) {
    && i < |rows| && (forall j :: 0 <= j < i ==> rows[j].session != rows[i].session)
    && e == Session(rows[i].session, rows[i].org, rows[i].createdAt, rows[i].expiresAt)
  }

  predicate Lists(list: seq<Session>, k: nat, session: nat) { k < |list| && list[k].session == session }

  /** One entry per session, whatever the table: each of its first, that is newest, row. */
  lemma OneEntryPerSession(rows: seq<Token>)
    ensures var list := Collapse(rows);
      && (forall k, l :: 0 <= k < l < |list| ==> list[k].session != list[l].session)
      && (forall row :: row in rows ==> exists k: nat :: Lists(list, k, row.session))
      && (forall e :: e in list ==> exists i: nat :: Heads(rows, i, e))
  {
    var list := Collapse(rows);
    hide Collapse;
    forall k, l | 0 <= k < l < |list| ensures list[k].session != list[l].session {
      ListedOnce(rows, k, l);
    }
    forall row | row in rows ensures exists k: nat :: Lists(list, k, row.session) {
      var i :| 0 <= i < |rows| && rows[i] == row;
      var k := SessionIsListed(rows, i);
      assert Lists(list, k, row.session);
    }
    forall e | e in list ensures exists i: nat :: Heads(rows, i, e) {
      var k :| 0 <= k < |list| && list[k] == e;
      var i := ListedIsFirst(rows, k);
      assert Heads(rows, i, e);
    }
  }

  function Summaries(rows: seq<Token>): seq<Session> {
    seq(|rows|, i requires 0 <= i < |rows| => Summary(rows[i]))
  }

  lemma {:induction false} AllFirstCollapse(rows: seq<Token>)
    requires forall i :: 0 <= i < |rows| ==> FirstOfSession(rows, i)
    ensures Collapse(rows) == Summaries(rows)
  {
    if rows != [] {
      var n := |rows| - 1;
      forall i | 0 <= i < n ensures FirstOfSession(rows[..n], i) {
        assert FirstOfSession(rows, i);
      }
      AllFirstCollapse(rows[..n]);
    }
  }

  function Ages(tokens: Table, user: nat, now: int): map<Id, int> {
    map id | id in tokens && tokens[id].user == user && tokens[id].revokedAt == None && now < tokens[id].expiresAt ::
      -tokens[id].createdAt
  }

  /** The query has an answer. */
  lemma ActiveListExists(tokens: Table, user: nat, now: int) returns (ids: seq<Id>, rows: seq<Token>)
    ensures IsActiveList(tokens, user, now, ids, rows)
  {
    var ages := Ages(tokens, user, now);
    var limit: nat := |ages| + 1;
    ids := OldestFirst.AnswerExists(ages, limit);
    OldestFirst.DistinctCount(ids);
    OldestFirst.SubsetCount(OldestFirst.Elements(ids), ages.Keys);
    assert |ages.Keys| == |ages|;
    forall id | id in ages ensures id in ids {
      if id !in ids { OldestFirst.FullWhenLeftOut(ages, limit, ids, id); }
    }
    rows := seq(|ids|, i requires 0 <= i < |ids| => tokens[ids[i]]);
  }

  /** In a sound table no two active rows share a session: the list shows every active token once, newest first. */
  lemma SessionsAreTheActiveTokens(db: Db, user: nat, now: int, ids: seq<Id>, rows: seq<Token>)
    requires Inv(db) && IsActiveList(db.tokens, user, now, ids, rows)
    ensures var list := Collapse(rows);
      && |list| == |ids|
      && (forall i :: 0 <= i < |ids| ==>
           && ids[i] in db.tokens
           && var t := db.tokens[ids[i]]; list[i] == Session(t.session, t.org, t.createdAt, t.expiresAt))
      && (forall i, j :: 0 <= i < j < |list| ==> list[i].session != list[j].session && list[j].createdAt <= list[i].createdAt)
    ensures forall id :: id in ids <==>
      && id in db.tokens && db.tokens[id].user == user
      && db.tokens[id].revokedAt == None && now < db.tokens[id].expiresAt
  {
    hide Recorded, Families, Chains, Spent, UniqueHashes, Collapse, FirstOfSession;
    ActiveRowsHeadTheirSessions(db, user, now, ids, rows);
    AllFirstCollapse(rows);
  }

  lemma ActiveRowsHeadTheirSessions(db: Db, user: nat, now: int, ids: seq<Id>, rows: seq<Token>)
    requires Inv(db) && IsActiveList(db.tokens, user, now, ids, rows)
    ensures forall i :: 0 <= i < |rows| ==> FirstOfSession(rows, i)
    ensures forall i, j :: 0 <= i < j < |rows| ==> rows[i].session != rows[j].session
  {
    ChainsOf(db);
    hide Recorded, Chains, Spent, UniqueHashes;
    forall i, j | 0 <= j < i < |rows| ensures rows[j].session != rows[i].session {
      assert ids[i] in ids && ids[j] in ids;
    }
  }
}
