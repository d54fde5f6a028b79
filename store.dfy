/**
 * The server's relational store, as the request handlers see it: the food
 * catalog, anonymous users, ratings, recommendation-session records,
 * per-food counters, the global usage singleton and per-day usage records.
 * Every handler is one atomic read-modify-write step over a `Db`.
 */
module Store {
  import opened Common

  datatype Kind = Dish | Drink

  /** The enum spelling the API and the store use. */
  function KindName(k: Kind): string {
    match k
    case Dish => "DISH"
    case Drink => "DRINK"
  }

  /** Reads a kind spelled as in the store; anything else is not a kind. */
  function ParseKind(s: string): (r: Option<Kind>)
    ensures r.Some? <==> s == "DISH" || s == "DRINK"
    ensures r.Some? ==> KindName(r.value) == s
  {
    if s == "DISH" then Some(Dish) else if s == "DRINK" then Some(Drink) else None
  }

  lemma ParseKindName(k: Kind)
    ensures ParseKind(KindName(k)) == Some(k)
  {
  }

  datatype Status = Active | Pending | Hidden

  function StatusName(s: Status): string {
    match s
    case Active => "ACTIVE"
    case Pending => "PENDING"
    case Hidden => "HIDDEN"
  }

  function ParseStatus(s: string): (r: Option<Status>)
    ensures r.Some? <==> s == "ACTIVE" || s == "PENDING" || s == "HIDDEN"
    ensures r.Some? ==> StatusName(r.value) == s
  {
    if s == "ACTIVE" then Some(Active)
    else if s == "PENDING" then Some(Pending)
    else if s == "HIDDEN" then Some(Hidden)
    else None
  }

  /** A catalog row. Tags are kept decoded; their JSON text form is left to the boundary. */
  datatype Food = Food(
    id: nat,
    name: string,
    kind: Kind,
    category: string,
    description: Option<string>,
    tags: seq<string>,
    status: Status,
    isUserUploaded: bool,
    uploadedBy: Option<nat>,
    uploadIp: Option<string>,
    createdAt: int)

  datatype User = User(id: nat, nickname: string, role: string)

  /** A like (+1) or dislike (-1) of one food by one device. */
  datatype Rating = Rating(foodId: nat, deviceId: string, rating: int)

  /** Per-food selection counters, created lazily with zero counts. */
  datatype FoodStat = FoodStat(
    recommendCount: nat,
    acceptCount: nat,
    rejectTodayCount: nat,
    rejectForeverCount: nat,
    lastRecommended: Option<int>,
    lastAccepted: Option<int>,
    lastRejected: Option<int>)

  const ZeroFoodStat := FoodStat(0, 0, 0, 0, None, None, None)

  /** One entry of a session's history (kept as a JSON array in the store). */
  datatype HistoryEntry =
    | Attempted(foodId: Option<nat>, drinkId: Option<nat>, timestamp: int)
    | Abandoned(reason: Option<string>, timestamp: int)

  datatype SessionRecord = SessionRecord(
    id: nat,
    sessionId: string,
    deviceId: Option<string>,
    userId: Option<string>,
    includeDrink: bool,
    totalAttempts: nat,
    history: seq<HistoryEntry>,
    isAccepted: bool,
    finalFoodId: Option<nat>,
    finalDrinkId: Option<nat>,
    rejectionType: Option<string>,
    completedAt: Option<int>)

  datatype GlobalStat = GlobalStat(
    totalClicks: nat,
    totalUsers: nat,
    totalSessions: nat,
    totalAttempts: nat,
    totalAccepted: nat,
    totalRejected: nat,
    totalAbandoned: nat,
    lastUpdated: Option<int>)

  const ZeroGlobalStat := GlobalStat(0, 0, 0, 0, 0, 0, 0, None)

  datatype DailyStat = DailyStat(
    date: string,
    dailyClicks: nat,
    dailyUsers: nat,
    dailySessions: nat,
    dailyAttempts: nat,
    dailyAccepted: nat,
    dailyRejected: nat,
    dailyAbandoned: nat,
    activeUsers: seq<Option<string>>)   // None: a device id that was absent, stored as JSON null

  function ZeroDailyStat(date: string): DailyStat {
    DailyStat(date, 0, 0, 0, 0, 0, 0, 0, [])
  }

  /** The session was accepted, rejected or abandoned. */
  predicate Closed(r: SessionRecord) {
    r.isAccepted || r.rejectionType.Some?
  }

  /** No device id is listed twice (absent ids, stored as null, may repeat). */
  predicate NoDuplicates(s: seq<Option<string>>) {
    forall i, j :: 0 <= i < j < |s| && s[i].Some? ==> s[i] != s[j]
  }

  /** A day record counts each listed entry once. */
  predicate DailyValid(d: DailyStat) {
    NoDuplicates(d.activeUsers) && d.dailyUsers == |d.activeUsers|
  }

  predicate UniqueDates(daily: seq<DailyStat>) {
    forall i, j :: 0 <= i < j < |daily| ==> daily[i].date != daily[j].date
  }

  predicate DistinctFoodIds(foods: seq<Food>) {
    forall i, j :: 0 <= i < j < |foods| ==> foods[i].id != foods[j].id
  }

  /** `id` names a row of the catalog. */
  predicate IsFoodId(foods: seq<Food>, id: nat) {
    exists i :: 0 <= i < |foods| && foods[i].id == id
  }

  /** The same check, computed. */
  function HasFood(foods: seq<Food>, id: nat): (b: bool)
    ensures b <==> IsFoodId(foods, id)
  {
    if foods == [] then false
    else if foods[0].id == id then true
    else
      assert IsFoodId(foods, id) <==> IsFoodId(foods[1..], id) by {
        if IsFoodId(foods, id) {
          var i :| 0 <= i < |foods| && foods[i].id == id;
          assert foods[1..][i - 1].id == id;
        }
        if IsFoodId(foods[1..], id) {
          var i :| 0 <= i < |foods[1..]| && foods[1..][i].id == id;
          assert foods[i + 1].id == id;
        }
      }
      HasFood(foods[1..], id)
  }

  /** A row with the next free id keeps the catalog's ids distinct, and every id stays in the catalog. */
  lemma NewIdIsFresh(foods: seq<Food>, f: Food)
    requires forall i :: 0 <= i < |foods| ==> foods[i].id < f.id
    requires DistinctFoodIds(foods)
    ensures DistinctFoodIds(foods + [f])
    ensures forall id :: IsFoodId(foods, id) ==> IsFoodId(foods + [f], id)
  {
    forall id | IsFoodId(foods, id) ensures IsFoodId(foods + [f], id) {
      var i :| 0 <= i < |foods| && foods[i].id == id;
      assert (foods + [f])[i].id == id;
    }
  }

  class Db {
    var foods: seq<Food>
    var users: seq<User>
    var ratings: seq<Rating>
    var sessions: seq<SessionRecord>
    var foodStats: map<nat, FoodStat>
    var global: Option<GlobalStat>
    var daily: seq<DailyStat>
    /** The next unused row id (the store's id generator). */
    var nextId: nat

    ghost predicate Valid()
      reads this
    {
      && (forall i :: 0 <= i < |foods| ==> foods[i].id < nextId)
      && (forall i :: 0 <= i < |users| ==> users[i].id < nextId)
      && (forall i :: 0 <= i < |sessions| ==> sessions[i].id < nextId)
      && DistinctFoodIds(foods)
      && (forall id :: id in foodStats ==> IsFoodId(foods, id))
      && (forall i :: 0 <= i < |sessions| ==> Closed(sessions[i]) ==> sessions[i].completedAt.Some?)
      && UniqueDates(daily)
      && (forall i :: 0 <= i < |daily| ==> DailyValid(daily[i]))
    }

    constructor ()
      ensures Valid()
      ensures foods == [] && users == [] && ratings == [] && sessions == []
      ensures foodStats == map[] && global == None && daily == [] && nextId == 0
    {
      foods, users, ratings, sessions := [], [], [], [];
      foodStats, global, daily, nextId := map[], None, [], 0;
    }
  }
}
