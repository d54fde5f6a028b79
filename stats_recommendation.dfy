/**
 * The recommendation-session recorder (`/api/stats/recommendation`): POST
 * opens a session record, PUT applies one client action to it (attempt,
 * accept, reject, abandon) and feeds the per-food counters through
 * `updateFoodStats`; GET summarises the session table.
 */
module RecommendationStats {
  import opened Common
  import opened Store

  // ---------------------------------------------------------------------------
  // Per-food counters (updateFoodStats)
  // ---------------------------------------------------------------------------

  /** The four updates `updateFoodStats` knows. */
  datatype FoodStatAction = Recommend | Accept | RejectToday | RejectForever

  /** The counter an action raises. */
  function Counter(s: FoodStat, a: FoodStatAction): nat {
    match a
    case Recommend => s.recommendCount
    case Accept => s.acceptCount
    case RejectToday => s.rejectTodayCount
    case RejectForever => s.rejectForeverCount
  }

  /** The time stamp an action refreshes; both rejections share one. */
  function Stamp(s: FoodStat, a: FoodStatAction): Option<int> {
    match a
    case Recommend => s.lastRecommended
    case Accept => s.lastAccepted
    case RejectToday => s.lastRejected
    case RejectForever => s.lastRejected
  }

  /** Whether two actions refresh the same time stamp. */
  predicate SameStamp(a: FoodStatAction, b: FoodStatAction) {
    a == b || (a != Recommend && a != Accept && b != Recommend && b != Accept)
  }

  /** The counter record after one event: exactly one counter rises by one, with its stamp. */
  function Bump(s: FoodStat, a: FoodStatAction, now: int): (r: FoodStat)
    ensures Counter(r, a) == Counter(s, a) + 1
    ensures forall b :: b != a ==> Counter(r, b) == Counter(s, b)
    ensures Stamp(r, a) == Some(now)
    ensures forall b :: !SameStamp(a, b) ==> Stamp(r, b) == Stamp(s, b)
  {
    match a
    case Recommend => s.(recommendCount := s.recommendCount + 1, lastRecommended := Some(now))
    case Accept => s.(acceptCount := s.acceptCount + 1, lastAccepted := Some(now))
    case RejectToday => s.(rejectTodayCount := s.rejectTodayCount + 1, lastRejected := Some(now))
    case RejectForever => s.(rejectForeverCount := s.rejectForeverCount + 1, lastRejected := Some(now))
  }

  /** The counters of a food, zero when it has no record yet. */
  function StatOf(stats: map<nat, FoodStat>, foodId: nat): FoodStat {
    if foodId in stats then stats[foodId] else ZeroFoodStat
  }

  /**
   * The counter table after `updateFoodStats(foodId, a)`: the record is
   * created lazily and bumped. A food id that is not in the catalog makes the
   * lazy creation fail on the foreign key; the error is swallowed and nothing
   * changes.
   */
  function FoodStatsAfter(stats: map<nat, FoodStat>, foods: seq<Food>, foodId: nat, a: FoodStatAction, now: int)
    : (r: map<nat, FoodStat>)
    ensures forall id :: id != foodId ==> (id in r <==> id in stats) && (id in stats ==> r[id] == stats[id])
    ensures HasFood(foods, foodId) ==> foodId in r && r[foodId] == Bump(StatOf(stats, foodId), a, now)
    ensures !HasFood(foods, foodId) ==> r == stats
  {
    if HasFood(foods, foodId) then stats[foodId := Bump(StatOf(stats, foodId), a, now)] else stats
  }

  /** One update keeps every counter record attached to a catalog food. */
  lemma FoodStatsAfterKeys(stats: map<nat, FoodStat>, foods: seq<Food>, foodId: nat, a: FoodStatAction, now: int)
    requires forall id :: id in stats ==> IsFoodId(foods, id)
    ensures forall id :: id in FoodStatsAfter(stats, foods, foodId, a, now) ==> IsFoodId(foods, id)
  {
  }

  /** `updateFoodStats`: find the record or start from a new zeroed one, fill the update, write it. */
  method UpdateFoodStats(db: Db, foodId: nat, a: FoodStatAction, now: int)
    requires db.Valid()
    modifies db`foodStats
    ensures db.Valid()
    ensures db.foodStats == FoodStatsAfter(old(db.foodStats), db.foods, foodId, a, now)
  {
    var known := HasFood(db.foods, foodId);
    if !known {
      // the lazy create fails (foreign key); the handler logs and returns
      return;
    }
    var stat := if foodId in db.foodStats then db.foodStats[foodId] else ZeroFoodStat;
    FoodStatsAfterKeys(db.foodStats, db.foods, foodId, a, now);
    db.foodStats := db.foodStats[foodId := Bump(stat, a, now)];
  }

  /** A run of counter updates, applied in order. */
  function ApplyEvents(stats: map<nat, FoodStat>, foods: seq<Food>, events: seq<(nat, FoodStatAction)>, now: int)
    : map<nat, FoodStat>
    decreases |events|
  {
    if events == [] then stats
    else ApplyEvents(FoodStatsAfter(stats, foods, events[0].0, events[0].1, now), foods, events[1..], now)
  }

  /** How many events of `events` are `(foodId, a)`. */
  function Occurrences(events: seq<(nat, FoodStatAction)>, foodId: nat, a: FoodStatAction): nat {
    if events == [] then 0
    else (if events[0] == (foodId, a) then 1 else 0) + Occurrences(events[1..], foodId, a)
  }

  /**
   * No update is lost: after a run of events, each counter of a catalog food
   * has risen by exactly the number of events naming that food and counter.
   */
  lemma {:induction false} ApplyEventsCounts(
    stats: map<nat, FoodStat>, foods: seq<Food>, events: seq<(nat, FoodStatAction)>, now: int,
    foodId: nat, a: FoodStatAction)
    requires HasFood(foods, foodId)
    ensures Counter(StatOf(ApplyEvents(stats, foods, events, now), foodId), a)
         == Counter(StatOf(stats, foodId), a) + Occurrences(events, foodId, a)
    decreases |events|
  {
    if events != [] {
      var next := FoodStatsAfter(stats, foods, events[0].0, events[0].1, now);
      ApplyEventsCounts(next, foods, events[1..], now, foodId, a);
      if events[0].0 == foodId {
        assert Counter(StatOf(next, foodId), a)
            == Counter(StatOf(stats, foodId), a) + (if events[0] == (foodId, a) then 1 else 0);
      } else {
        assert StatOf(next, foodId) == StatOf(stats, foodId);
      }
    }
  }

  /** Counters never go down, whatever the events. */
  lemma {:induction false} ApplyEventsMonotone(
    stats: map<nat, FoodStat>, foods: seq<Food>, events: seq<(nat, FoodStatAction)>, now: int,
    foodId: nat, a: FoodStatAction)
    ensures Counter(StatOf(ApplyEvents(stats, foods, events, now), foodId), a) >= Counter(StatOf(stats, foodId), a)
    decreases |events|
  {
    if events != [] {
      var next := FoodStatsAfter(stats, foods, events[0].0, events[0].1, now);
      ApplyEventsMonotone(next, foods, events[1..], now, foodId, a);
      assert Counter(StatOf(next, foodId), a) >= Counter(StatOf(stats, foodId), a);
    }
  }

  /** Events naming foods outside the catalog change nothing. */
  lemma {:induction false} ApplyEventsUnknownFood(
    stats: map<nat, FoodStat>, foods: seq<Food>, events: seq<(nat, FoodStatAction)>, now: int)
    requires forall i :: 0 <= i < |events| ==> !HasFood(foods, events[i].0)
    ensures ApplyEvents(stats, foods, events, now) == stats
    decreases |events|
  {
    if events != [] {
      ApplyEventsUnknownFood(stats, foods, events[1..], now);
    }
  }

  /** `updateFoodStats` only creates records for catalog foods. */
  lemma {:induction false} ApplyEventsKeys(
    stats: map<nat, FoodStat>, foods: seq<Food>, events: seq<(nat, FoodStatAction)>, now: int)
    requires forall id :: id in stats ==> IsFoodId(foods, id)
    ensures forall id :: id in ApplyEvents(stats, foods, events, now) ==> IsFoodId(foods, id)
    decreases |events|
  {
    if events != [] {
      var next := FoodStatsAfter(stats, foods, events[0].0, events[0].1, now);
      ApplyEventsKeys(next, foods, events[1..], now);
    }
  }

  // ---------------------------------------------------------------------------
  // Sessions (POST and PUT)
  // ---------------------------------------------------------------------------

  /** The body of a PUT; absent fields are `None`. */
  datatype PutRequest = PutRequest(
    sessionId: Option<string>,
    foodId: Option<nat>,
    drinkId: Option<nat>,
    action: Option<string>,
    rejectionType: Option<string>,
    abandonReason: Option<string>)

  datatype PutResponse =
    | Updated(sessionId: string)   // 200, also for an unrecognised action
    | MissingSessionId             // 400
    | SessionNotFound              // 404

  /** The record POST creates: no attempts, empty history, not completed. */
  function NewSession(id: nat, sessionId: string, deviceId: Option<string>, userId: Option<string>, includeDrink: Option<bool>)
    : SessionRecord
  {
    SessionRecord(id, sessionId, deviceId, userId,
      includeDrink.Some? && includeDrink.value,
      0, [], false, None, None, None, None)
  }

  /** POST: opens a session record with a store-assigned id and returns both ids. */
  method CreateSession(db: Db, sessionId: string, deviceId: Option<string>, userId: Option<string>, includeDrink: Option<bool>)
    returns (createdSessionId: string, id: nat)
    requires db.Valid()
    modifies db`sessions, db`nextId
    ensures db.Valid()
    ensures id == old(db.nextId) && db.nextId == id + 1
    ensures createdSessionId == sessionId
    ensures db.sessions == old(db.sessions) + [NewSession(id, sessionId, deviceId, userId, includeDrink)]
  {
    id := db.nextId;
    var rec := NewSession(id, sessionId, deviceId, userId, includeDrink);
    db.sessions := db.sessions + [rec];
    db.nextId := db.nextId + 1;
    createdSessionId := rec.sessionId;
  }

  /** A new record has no attempts and no history, and is neither accepted nor completed. */
  lemma NewSessionIsEmpty(id: nat, sessionId: string, deviceId: Option<string>, userId: Option<string>, includeDrink: Option<bool>)
    ensures var r := NewSession(id, sessionId, deviceId, userId, includeDrink);
      r.totalAttempts == 0 && r.history == [] && !Closed(r) && r.completedAt.None? &&
      (r.includeDrink <==> includeDrink == Some(true))
  {
  }

  /** `findFirst({ where: { sessionId } })`: the first record with that session id. */
  function FindSession(sessions: seq<SessionRecord>, sessionId: string): Option<nat> {
    FindFirst(sessions, (s: SessionRecord) => s.sessionId == sessionId)
  }

  /** A given id in the update replaces the stored one; an absent one leaves it (the store ignores undefined). */
  function Given<T>(given: Option<T>, stored: Option<T>): Option<T> {
    if given.Some? then given else stored
  }

  /** The session record after one PUT action. No action looks at `completedAt`. */
  function ApplyAction(rec: SessionRecord, req: PutRequest, now: int): SessionRecord {
    if req.action == Some("attempt") then
      rec.(totalAttempts := rec.totalAttempts + 1,
           history := rec.history + [Attempted(req.foodId, req.drinkId, now)])
    else if req.action == Some("accept") then
      rec.(isAccepted := true,
           finalFoodId := Given(req.foodId, rec.finalFoodId),
           finalDrinkId := Given(req.drinkId, rec.finalDrinkId),
           completedAt := Some(now))
    else if req.action == Some("reject") then
      rec.(rejectionType := Given(req.rejectionType, rec.rejectionType),
           completedAt := Some(now))
    else if req.action == Some("abandon") then
      rec.(rejectionType := Some("abandon"),
           completedAt := Some(now),
           history := rec.history + [Abandoned(req.abandonReason, now)])
    else rec
  }

  /** The updates for `id` if it is given. */
  function IfGiven(id: Option<nat>, a: FoodStatAction): seq<(nat, FoodStatAction)> {
    if id.Some? then [(id.value, a)] else []
  }

  /** The per-food counter updates one PUT action triggers, food first, then drink. */
  function StatEvents(req: PutRequest): seq<(nat, FoodStatAction)> {
    if req.action == Some("attempt") then
      IfGiven(req.foodId, Recommend) + IfGiven(req.drinkId, Recommend)
    else if req.action == Some("accept") then
      IfGiven(req.foodId, Accept) + IfGiven(req.drinkId, Accept)
    else if req.action == Some("reject") then
      var a := if req.rejectionType == Some("forever") then RejectForever else RejectToday;
      IfGiven(req.foodId, a) + IfGiven(req.drinkId, a)
    else []
  }

  /** PUT: applies one action to the session and its foods' counters. */
  method Put(db: Db, req: PutRequest, now: int) returns (resp: PutResponse)
    requires db.Valid()
    modifies db`sessions, db`foodStats
    ensures db.Valid()
    ensures !Truthy(req.sessionId) ==>
      resp == MissingSessionId && db.sessions == old(db.sessions) && db.foodStats == old(db.foodStats)
    ensures Truthy(req.sessionId) && FindSession(old(db.sessions), req.sessionId.value).None? ==>
      resp == SessionNotFound && db.sessions == old(db.sessions) && db.foodStats == old(db.foodStats)
    ensures Truthy(req.sessionId) && FindSession(old(db.sessions), req.sessionId.value).Some? ==>
      var i := FindSession(old(db.sessions), req.sessionId.value).value;
      && resp == Updated(req.sessionId.value)
      && db.sessions == old(db.sessions)[i := ApplyAction(old(db.sessions)[i], req, now)]
      && db.foodStats == ApplyEvents(old(db.foodStats), db.foods, StatEvents(req), now)
  {
    if !Truthy(req.sessionId) {
      return MissingSessionId;
    }
    var sessionId := req.sessionId.value;
    var found := FindSession(db.sessions, sessionId);
    if found.None? {
      return SessionNotFound;
    }
    var i := found.value;
    var rec := ApplyAction(db.sessions[i], req, now);
    assert Closed(rec) ==> rec.completedAt.Some?;
    db.sessions := db.sessions[i := rec];
    ApplyStatEvents(db, StatEvents(req), now);
    resp := Updated(sessionId);
  }

  /** The `updateFoodStats` calls of one action, one after the other. */
  method ApplyStatEvents(db: Db, events: seq<(nat, FoodStatAction)>, now: int)
    requires db.Valid()
    modifies db`foodStats
    ensures db.Valid()
    ensures db.foodStats == ApplyEvents(old(db.foodStats), db.foods, events, now)
  {
    var k := 0;
    while k < |events|
      invariant 0 <= k <= |events|
      invariant db.Valid()
      invariant db.foodStats == ApplyEvents(old(db.foodStats), db.foods, events[..k], now)
    {
      UpdateFoodStats(db, events[k].0, events[k].1, now);
      ApplyEventsSnoc(old(db.foodStats), db.foods, events[..k], events[k], now);
      assert events[..k + 1] == events[..k] + [events[k]];
      k := k + 1;
    }
    assert events[..k] == events;
  }

  /** Applying one more event at the end of a run. */
  lemma {:induction false} ApplyEventsSnoc(
    stats: map<nat, FoodStat>, foods: seq<Food>, events: seq<(nat, FoodStatAction)>, e: (nat, FoodStatAction), now: int)
    ensures ApplyEvents(stats, foods, events + [e], now)
         == FoodStatsAfter(ApplyEvents(stats, foods, events, now), foods, e.0, e.1, now)
    decreases |events|
  {
    if events != [] {
      var next := FoodStatsAfter(stats, foods, events[0].0, events[0].1, now);
      assert (events + [e])[1..] == events[1..] + [e];
      ApplyEventsSnoc(next, foods, events[1..], e, now);
    }
  }

  /** 'attempt' appends exactly one history entry and counts exactly one attempt. */
  lemma AttemptAppendsOne(rec: SessionRecord, req: PutRequest, now: int)
    requires req.action == Some("attempt")
    ensures var r := ApplyAction(rec, req, now);
      && r.totalAttempts == rec.totalAttempts + 1
      && |r.history| == |rec.history| + 1
      && r.history[..|rec.history|] == rec.history
      && r.history[|rec.history|] == Attempted(req.foodId, req.drinkId, now)
      && r.completedAt == rec.completedAt && r.isAccepted == rec.isAccepted
  {
  }

  /** 'attempt' recommends the food once and the drink once, the drink only when given. */
  lemma AttemptRecommends(req: PutRequest, foodId: nat)
    requires req.action == Some("attempt")
    ensures Occurrences(StatEvents(req), foodId, Recommend)
         == (if req.foodId == Some(foodId) then 1 else 0) + (if req.drinkId == Some(foodId) then 1 else 0)
    ensures forall a :: a != Recommend ==> Occurrences(StatEvents(req), foodId, a) == 0
  {
    OccurrencesOfPair(req.foodId, req.drinkId, Recommend, foodId);
  }

  /** Occurrences add up over concatenation. */
  lemma {:induction false} OccurrencesConcat(x: seq<(nat, FoodStatAction)>, y: seq<(nat, FoodStatAction)>, foodId: nat, b: FoodStatAction)
    ensures Occurrences(x + y, foodId, b) == Occurrences(x, foodId, b) + Occurrences(y, foodId, b)
  {
    if x == [] {
      assert x + y == y;
    } else {
      assert (x + y)[1..] == x[1..] + y;
      OccurrencesConcat(x[1..], y, foodId, b);
    }
  }

  lemma OccurrencesIfGiven(x: Option<nat>, a: FoodStatAction, foodId: nat, b: FoodStatAction)
    ensures Occurrences(IfGiven(x, a), foodId, b) == if x == Some(foodId) && a == b then 1 else 0
  {
    if x.Some? {
      assert IfGiven(x, a)[1..] == [];
    }
  }

  /** The occurrences in `IfGiven(f, a) + IfGiven(d, a)`. */
  lemma OccurrencesOfPair(f: Option<nat>, d: Option<nat>, a: FoodStatAction, foodId: nat)
    ensures Occurrences(IfGiven(f, a) + IfGiven(d, a), foodId, a)
         == (if f == Some(foodId) then 1 else 0) + (if d == Some(foodId) then 1 else 0)
    ensures forall b :: b != a ==> Occurrences(IfGiven(f, a) + IfGiven(d, a), foodId, b) == 0
  {
    forall b ensures Occurrences(IfGiven(f, a) + IfGiven(d, a), foodId, b)
        == (if f == Some(foodId) && a == b then 1 else 0) + (if d == Some(foodId) && a == b then 1 else 0) {
      OccurrencesConcat(IfGiven(f, a), IfGiven(d, a), foodId, b);
      OccurrencesIfGiven(f, a, foodId, b);
      OccurrencesIfGiven(d, a, foodId, b);
    }
  }

  /** 'accept' closes the session with the given finals, keeps the attempts, and counts acceptances. */
  lemma AcceptKeepsAttempts(rec: SessionRecord, req: PutRequest, now: int, foodId: nat)
    requires req.action == Some("accept")
    ensures var r := ApplyAction(rec, req, now);
      && r.isAccepted && r.completedAt == Some(now)
      && (req.foodId.Some? ==> r.finalFoodId == req.foodId)
      && (req.drinkId.Some? ==> r.finalDrinkId == req.drinkId)
      && r.totalAttempts == rec.totalAttempts && r.history == rec.history
    ensures Occurrences(StatEvents(req), foodId, Accept)
         == (if req.foodId == Some(foodId) then 1 else 0) + (if req.drinkId == Some(foodId) then 1 else 0)
    ensures forall a :: a != Accept ==> Occurrences(StatEvents(req), foodId, a) == 0
  {
    OccurrencesOfPair(req.foodId, req.drinkId, Accept, foodId);
  }

  /**
   * 'reject' counts a permanent rejection iff the type is 'forever', and one
   * for today otherwise, once per given id naming the food (twice when the
   * food and the drink are the same id).
   */
  lemma RejectByType(rec: SessionRecord, req: PutRequest, now: int, foodId: nat)
    requires req.action == Some("reject")
    ensures var k := (if req.foodId == Some(foodId) then 1 else 0) + (if req.drinkId == Some(foodId) then 1 else 0);
      && Occurrences(StatEvents(req), foodId, RejectForever) == (if req.rejectionType == Some("forever") then k else 0)
      && Occurrences(StatEvents(req), foodId, RejectToday) == (if req.rejectionType == Some("forever") then 0 else k)
    ensures Occurrences(StatEvents(req), foodId, Recommend) == 0 && Occurrences(StatEvents(req), foodId, Accept) == 0
    ensures var r := ApplyAction(rec, req, now);
      r.completedAt == Some(now) && r.totalAttempts == rec.totalAttempts && r.history == rec.history
  {
    var a := if req.rejectionType == Some("forever") then RejectForever else RejectToday;
    OccurrencesOfPair(req.foodId, req.drinkId, a, foodId);
  }

  /** 'abandon' closes the session with one abandon entry and touches no food counter. */
  lemma AbandonTouchesNoFood(rec: SessionRecord, req: PutRequest, now: int)
    requires req.action == Some("abandon")
    ensures StatEvents(req) == []
    ensures var r := ApplyAction(rec, req, now);
      && r.rejectionType == Some("abandon") && r.completedAt == Some(now)
      && r.history == rec.history + [Abandoned(req.abandonReason, now)]
      && r.totalAttempts == rec.totalAttempts
  {
  }

  /** An unrecognised action changes nothing (the PUT still answers success). */
  lemma UnknownActionChangesNothing(rec: SessionRecord, req: PutRequest, now: int)
    requires req.action !in {Some("attempt"), Some("accept"), Some("reject"), Some("abandon")}
    ensures ApplyAction(rec, req, now) == rec && StatEvents(req) == []
  {
  }

  /**
   * Nothing guards a completed session: accepting the same food twice raises
   * its acceptance counter twice.
   */
  lemma RepeatedAcceptCountsTwice(stats: map<nat, FoodStat>, foods: seq<Food>, req: PutRequest, now: int, later: int)
    requires req.action == Some("accept") && req.foodId.Some? && req.drinkId.None?
    requires HasFood(foods, req.foodId.value)
    ensures var once := ApplyEvents(stats, foods, StatEvents(req), now);
      var twice := ApplyEvents(once, foods, StatEvents(req), later);
      StatOf(twice, req.foodId.value).acceptCount == StatOf(stats, req.foodId.value).acceptCount + 2
  {
    var f := req.foodId.value;
    var once := ApplyEvents(stats, foods, StatEvents(req), now);
    AcceptKeepsAttempts(SessionRecord(0, [], None, None, false, 0, [], false, None, None, None, None), req, now, f);
    ApplyEventsCounts(stats, foods, StatEvents(req), now, f, Accept);
    ApplyEventsCounts(once, foods, StatEvents(req), later, f, Accept);
  }

  // ---------------------------------------------------------------------------
  // GET summary
  // ---------------------------------------------------------------------------

  datatype Summary = Summary(totalSessions: nat, completedSessions: nat, acceptedSessions: nat, abandonedSessions: nat)

  /** The session counts of the summary (the rate strings derived from them are left out). */
  function SessionSummary(sessions: seq<SessionRecord>): Summary {
    Summary(
      |sessions|,
      Count(sessions, (r: SessionRecord) => r.completedAt.Some?),
      Count(sessions, (r: SessionRecord) => r.isAccepted),
      Count(sessions, (r: SessionRecord) => r.rejectionType == Some("abandon")))
  }

  datatype StatsReply = SummaryReply(summary: Summary) | EmptyData

  /** GET: the summary for type 'summary' (also when the type is absent or empty); an empty payload otherwise. */
  function GetStats(sessions: seq<SessionRecord>, statsType: Option<string>): (r: StatsReply)
    ensures r.SummaryReply? <==> !Truthy(statsType) || statsType == Some("summary")
    ensures r.SummaryReply? ==> r.summary.totalSessions == |sessions|
  {
    var t := if Truthy(statsType) then statsType.value else "summary";
    if t == "summary" then SummaryReply(SessionSummary(sessions)) else EmptyData
  }

  /** Filtering by a predicate that implies another keeps no more elements. */
  lemma {:induction false} CountMonotone<T(!new)>(s: seq<T>, p: T -> bool, q: T -> bool)
    requires forall i :: 0 <= i < |s| ==> p(s[i]) ==> q(s[i])
    ensures Count(s, p) <= Count(s, q)
  {
    if s != [] {
      CountMonotone(s[1..], p, q);
    }
  }

  /** Accepted and abandoned sessions are completed ones, so neither count exceeds the completed count. */
  lemma SummaryBounds(sessions: seq<SessionRecord>)
    requires forall i :: 0 <= i < |sessions| ==> Closed(sessions[i]) ==> sessions[i].completedAt.Some?
    ensures var s := SessionSummary(sessions);
      s.acceptedSessions <= s.completedSessions <= s.totalSessions &&
      s.abandonedSessions <= s.completedSessions
  {
    CountMonotone(sessions, (r: SessionRecord) => r.isAccepted, (r: SessionRecord) => r.completedAt.Some?);
    CountMonotone(sessions, (r: SessionRecord) => r.rejectionType == Some("abandon"), (r: SessionRecord) => r.completedAt.Some?);
  }
}
