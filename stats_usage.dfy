/**
 * The usage aggregator (`/api/stats/usage`): a global singleton of counters
 * and one counter record per calendar day. POST records one usage event in
 * both; GET reports the simple home-page numbers or the detailed view with
 * the 30 newest day records.
 */
module UsageStats {
  import opened Common
  import opened Store
  import opened Text
  import opened Sorting

  /** The usage events a client posts. */
  datatype UsageEvent = Click | SessionStart | Attempt | Accept | Reject | Abandon

  /** The action string a client posts for an event. */
  function ActionName(e: UsageEvent): string {
    match e
    case Click => "click"
    case SessionStart => "session_start"
    case Attempt => "attempt"
    case Accept => "accept"
    case Reject => "reject"
    case Abandon => "abandon"
  }

  /** The POST dispatch: the six known action strings, nothing else. */
  function ParseUsageAction(action: Option<string>): (r: Option<UsageEvent>)
    ensures r.Some? ==> action == Some(ActionName(r.value))
    ensures r.None? ==> forall e :: action != Some(ActionName(e))
  {
    if action == Some("click") then Some(Click)
    else if action == Some("session_start") then Some(SessionStart)
    else if action == Some("attempt") then Some(Attempt)
    else if action == Some("accept") then Some(Accept)
    else if action == Some("reject") then Some(Reject)
    else if action == Some("abandon") then Some(Abandon)
    else None
  }

  // ---------------------------------------------------------------------------
  // Global counters
  // ---------------------------------------------------------------------------

  /** The global counter an event raises. */
  function GlobalCounter(g: GlobalStat, e: UsageEvent): nat {
    match e
    case Click => g.totalClicks
    case SessionStart => g.totalSessions
    case Attempt => g.totalAttempts
    case Accept => g.totalAccepted
    case Reject => g.totalRejected
    case Abandon => g.totalAbandoned
  }

  /**
   * `updateGlobalStats`: the event's counter rises by one, a click from a new
   * user also raises `totalUsers`, and every update stamps `lastUpdated`.
   */
  function GlobalAfter(g: GlobalStat, e: UsageEvent, isNewUser: bool, now: int): (r: GlobalStat)
    ensures GlobalCounter(r, e) == GlobalCounter(g, e) + 1
    ensures forall e' :: e' != e ==> GlobalCounter(r, e') == GlobalCounter(g, e')
    ensures r.totalUsers == g.totalUsers + (if e == Click && isNewUser then 1 else 0)
    ensures r.lastUpdated == Some(now)
  {
    var g := g.(lastUpdated := Some(now));
    match e
    case Click =>
      g.(totalClicks := g.totalClicks + 1, totalUsers := if isNewUser then g.totalUsers + 1 else g.totalUsers)
    case SessionStart => g.(totalSessions := g.totalSessions + 1)
    case Attempt => g.(totalAttempts := g.totalAttempts + 1)
    case Accept => g.(totalAccepted := g.totalAccepted + 1)
    case Reject => g.(totalRejected := g.totalRejected + 1)
    case Abandon => g.(totalAbandoned := g.totalAbandoned + 1)
  }

  /**
   * The global "new user" test: no session record carries the device id. An
   * absent id puts no condition on the query, so it is new only while the
   * session table is empty.
   */
  function IsNewUser(sessions: seq<SessionRecord>, deviceId: Option<string>): (b: bool)
    ensures deviceId.Some? ==> (b <==> forall i :: 0 <= i < |sessions| ==> sessions[i].deviceId != deviceId)
    ensures deviceId.None? ==> (b <==> sessions == [])
  {
    if sessions == [] then true
    else if deviceId.None? || sessions[0].deviceId == deviceId then false
    else
      var rest := IsNewUser(sessions[1..], deviceId);
      assert forall i :: 1 <= i < |sessions| ==> sessions[i] == sessions[1..][i - 1];
      rest
  }

  /** The singleton, or the zeroed record `getOrCreateGlobalStats` would create. */
  function GlobalOrZero(global: Option<GlobalStat>): GlobalStat {
    if global.Some? then global.value else ZeroGlobalStat
  }

  /** `getOrCreateGlobalStats`: the existing singleton, or a newly created zeroed one. */
  method GetOrCreateGlobalStats(db: Db) returns (g: GlobalStat)
    requires db.Valid()
    modifies db`global
    ensures db.Valid()
    ensures g == GlobalOrZero(old(db.global)) && db.global == Some(g)
    ensures old(db.global).Some? ==> db.global == old(db.global)
  {
    if db.global.None? {
      db.global := Some(ZeroGlobalStat);
    }
    g := db.global.value;
  }

  /** `updateGlobalStats`, after fetching or creating the singleton. */
  method UpdateGlobalStats(db: Db, e: UsageEvent, deviceId: Option<string>, now: int)
    requires db.Valid()
    modifies db`global
    ensures db.Valid()
    ensures db.global == Some(GlobalAfter(GlobalOrZero(old(db.global)), e, IsNewUser(db.sessions, deviceId), now))
  {
    var g := GetOrCreateGlobalStats(db);
    var isNew := IsNewUser(db.sessions, deviceId);
    db.global := Some(GlobalAfter(g, e, isNew, now));
  }

  /**
   * Get-or-create is idempotent: a second call returns the record the first
   * one returned, and the singleton is what one call alone leaves.
   */
  method GetOrCreateTwice(db: Db) returns (first: GlobalStat, second: GlobalStat)
    requires db.Valid()
    modifies db`global
    ensures db.Valid()
    ensures first == second
    ensures first == GlobalOrZero(old(db.global)) && db.global == Some(first)
  {
    first := GetOrCreateGlobalStats(db);
    second := GetOrCreateGlobalStats(db);
  }

  // ---------------------------------------------------------------------------
  // Day records
  // ---------------------------------------------------------------------------

  /** The day counter an event raises. */
  function DailyCounter(d: DailyStat, e: UsageEvent): nat {
    match e
    case Click => d.dailyClicks
    case SessionStart => d.dailySessions
    case Attempt => d.dailyAttempts
    case Accept => d.dailyAccepted
    case Reject => d.dailyRejected
    case Abandon => d.dailyAbandoned
  }

  /**
   * The day's "new user" test: the device is not listed. A listed absent id
   * comes back from the store as null, which an absent id never equals.
   */
  predicate IsNewDailyUser(d: DailyStat, deviceId: Option<string>)
    ensures deviceId.None? ==> IsNewDailyUser(d, deviceId)
    ensures deviceId.Some? ==> (IsNewDailyUser(d, deviceId) <==> forall i :: 0 <= i < |d.activeUsers| ==> d.activeUsers[i] != deviceId)
  {
    deviceId.None? || deviceId !in d.activeUsers
  }

  /**
   * `updateDailyStats` on one record: the event's counter rises by one; a
   * click from a device not yet listed also lists it and counts it.
   */
  function DailyAfter(d: DailyStat, e: UsageEvent, deviceId: Option<string>): (r: DailyStat)
    ensures r.date == d.date
    ensures DailyCounter(r, e) == DailyCounter(d, e) + 1
    ensures forall e' :: e' != e ==> DailyCounter(r, e') == DailyCounter(d, e')
    ensures e == Click && IsNewDailyUser(d, deviceId) ==>
      r.dailyUsers == d.dailyUsers + 1 && r.activeUsers == d.activeUsers + [deviceId]
    ensures !(e == Click && IsNewDailyUser(d, deviceId)) ==>
      r.dailyUsers == d.dailyUsers && r.activeUsers == d.activeUsers
  {
    match e
    case Click =>
      if IsNewDailyUser(d, deviceId) then
        d.(dailyClicks := d.dailyClicks + 1, dailyUsers := d.dailyUsers + 1, activeUsers := d.activeUsers + [deviceId])
      else d.(dailyClicks := d.dailyClicks + 1)
    case SessionStart => d.(dailySessions := d.dailySessions + 1)
    case Attempt => d.(dailyAttempts := d.dailyAttempts + 1)
    case Accept => d.(dailyAccepted := d.dailyAccepted + 1)
    case Reject => d.(dailyRejected := d.dailyRejected + 1)
    case Abandon => d.(dailyAbandoned := d.dailyAbandoned + 1)
  }

  /** The day update keeps the device list free of repeats and `dailyUsers` equal to its length. */
  lemma DailyAfterValid(d: DailyStat, e: UsageEvent, deviceId: Option<string>)
    requires DailyValid(d)
    ensures DailyValid(DailyAfter(d, e, deviceId))
  {
    var r := DailyAfter(d, e, deviceId);
    if e == Click && IsNewDailyUser(d, deviceId) {
      forall i, j | 0 <= i < j < |r.activeUsers| && r.activeUsers[i].Some?
        ensures r.activeUsers[i] != r.activeUsers[j]
      {
        if j == |d.activeUsers| {
          assert r.activeUsers[i] in d.activeUsers;
        }
      }
    }
  }

  /** After a click the device is listed (when it was given). */
  lemma ClickListsDevice(d: DailyStat, deviceId: string)
    ensures Some(deviceId) in DailyAfter(d, Click, Some(deviceId)).activeUsers
  {
  }

  /** A device already listed for the day is not counted again. */
  lemma RepeatClickSameDay(d: DailyStat, deviceId: string)
    ensures var once := DailyAfter(d, Click, Some(deviceId));
      var twice := DailyAfter(once, Click, Some(deviceId));
      twice.dailyUsers == once.dailyUsers && twice.activeUsers == once.activeUsers &&
      twice.dailyClicks == d.dailyClicks + 2
  {
    ClickListsDevice(d, deviceId);
  }

  /** The position of the record for `date`. */
  function FindDay(daily: seq<DailyStat>, date: string): Option<nat> {
    FindFirst(daily, (d: DailyStat) => d.date == date)
  }

  /** The day table after `updateDailyStats`: the day's record is created when missing, then updated. */
  function DailyTableAfter(daily: seq<DailyStat>, date: string, e: UsageEvent, deviceId: Option<string>)
    : seq<DailyStat>
  {
    match FindDay(daily, date)
    case Some(i) => daily[i := DailyAfter(daily[i], e, deviceId)]
    case None => daily + [DailyAfter(ZeroDailyStat(date), e, deviceId)]
  }

  /** The record of `date`, if there is one. */
  function DayOf(daily: seq<DailyStat>, date: string): Option<DailyStat> {
    match FindDay(daily, date)
    case Some(i) => Some(daily[i])
    case None => None
  }

  /**
   * The day update touches one record: the day's own, which is created lazily
   * from zeros; every other day keeps its record, and the table keeps its
   * invariant (dates unique, device lists counted exactly).
   */
  lemma DailyTableAfterSpec(daily: seq<DailyStat>, date: string, e: UsageEvent, deviceId: Option<string>)
    requires UniqueDates(daily) && forall i :: 0 <= i < |daily| ==> DailyValid(daily[i])
    ensures var t := DailyTableAfter(daily, date, e, deviceId);
      && UniqueDates(t)
      && (forall i :: 0 <= i < |t| ==> DailyValid(t[i]))
      && DayOf(t, date) == Some(DailyAfter(
           if DayOf(daily, date).Some? then DayOf(daily, date).value else ZeroDailyStat(date), e, deviceId))
      && (forall other :: other != date ==> DayOf(t, other) == DayOf(daily, other))
      && |t| == |daily| + (if DayOf(daily, date).None? then 1 else 0)
  {
    var t := DailyTableAfter(daily, date, e, deviceId);
    match FindDay(daily, date)
    case Some(i) =>
      DailyAfterValid(daily[i], e, deviceId);
      assert FindDay(t, date) == Some(i) by {
        FindDayUnique(t, date, i);
      }
      forall other | other != date ensures DayOf(t, other) == DayOf(daily, other) {
        FindDayOutside(daily, t, other, i);
      }
    case None =>
      DailyAfterValid(ZeroDailyStat(date), e, deviceId);
      FindDayUnique(t, date, |daily|);
      forall other | other != date ensures DayOf(t, other) == DayOf(daily, other) {
        FindDayOutside(daily, t, other, |daily|);
      }
  }

  /** With unique dates, the record found for a date is the one at its position. */
  lemma FindDayUnique(daily: seq<DailyStat>, date: string, i: nat)
    requires UniqueDates(daily) && i < |daily| && daily[i].date == date
    ensures FindDay(daily, date) == Some(i)
  {
  }

  /** Changing or adding the record at `i` leaves the search for another date as it was. */
  lemma FindDayOutside(daily: seq<DailyStat>, t: seq<DailyStat>, other: string, i: nat)
    requires i <= |daily| && |t| == if i == |daily| then |daily| + 1 else |daily|
    requires forall j :: 0 <= j < |daily| && j != i ==> t[j] == daily[j]
    requires t[i].date != other && (i < |daily| ==> daily[i].date != other)
    ensures DayOf(t, other) == DayOf(daily, other)
  {
    match FindDay(daily, other)
    case Some(k) =>
      forall j | 0 <= j < k ensures t[j].date != other {
        if j != i { assert t[j] == daily[j]; }
      }
      assert t[k] == daily[k];
      FindDayPrefix(t, other, k);
    case None =>
      forall j | 0 <= j < |t| ensures t[j].date != other {
        if j != i { assert t[j] == daily[j]; }
      }
  }

  /** The first position holding a date is what the search finds. */
  lemma FindDayPrefix(daily: seq<DailyStat>, date: string, k: nat)
    requires k < |daily| && daily[k].date == date
    requires forall j :: 0 <= j < k ==> daily[j].date != date
    ensures FindDay(daily, date) == Some(k)
  {
  }

  /** `updateDailyStats`: find the day's record, create it if missing, write the update. */
  method UpdateDailyStats(db: Db, date: string, e: UsageEvent, deviceId: Option<string>)
    requires db.Valid()
    modifies db`daily
    ensures db.Valid()
    ensures db.daily == DailyTableAfter(old(db.daily), date, e, deviceId)
  {
    DailyTableAfterSpec(db.daily, date, e, deviceId);
    var found := FindDay(db.daily, date);
    var i: nat;
    if found.None? {
      db.daily := db.daily + [ZeroDailyStat(date)];
      i := |db.daily| - 1;
    } else {
      i := found.value;
    }
    db.daily := db.daily[i := DailyAfter(db.daily[i], e, deviceId)];
  }

  // ---------------------------------------------------------------------------
  // POST
  // ---------------------------------------------------------------------------

  datatype UsageResponse = Recorded(event: UsageEvent) | UnknownAction

  /** POST: a known action updates the global singleton, then today's record; an unknown one is a 400. */
  method Post(db: Db, action: Option<string>, deviceId: Option<string>, today: string, now: int)
    returns (resp: UsageResponse)
    requires db.Valid()
    modifies db`global, db`daily
    ensures db.Valid()
    ensures ParseUsageAction(action).None? ==>
      resp == UnknownAction && db.global == old(db.global) && db.daily == old(db.daily)
    ensures ParseUsageAction(action).Some? ==>
      var e := ParseUsageAction(action).value;
      && resp == Recorded(e)
      && db.global == Some(GlobalAfter(GlobalOrZero(old(db.global)), e, IsNewUser(db.sessions, deviceId), now))
      && db.daily == DailyTableAfter(old(db.daily), today, e, deviceId)
  {
    var parsed := ParseUsageAction(action);
    if parsed.None? {
      return UnknownAction;
    }
    var e := parsed.value;
    UpdateGlobalStats(db, e, deviceId, now);
    UpdateDailyStats(db, today, e, deviceId);
    resp := Recorded(e);
  }

  /** Every known action string dispatches to its own event. */
  lemma ParseActionName(e: UsageEvent)
    ensures ParseUsageAction(Some(ActionName(e))) == Some(e)
  {
  }

  /**
   * The global test looks at session records, not at earlier clicks: a device
   * that clicks twice before it has any session record is counted as a new
   * user both times (the day record counts it once, see `RepeatClickSameDay`).
   */
  lemma ClicksBeforeFirstSession(g: GlobalStat, sessions: seq<SessionRecord>, deviceId: string, t1: int, t2: int)
    requires forall i :: 0 <= i < |sessions| ==> sessions[i].deviceId != Some(deviceId)
    ensures GlobalAfter(GlobalAfter(g, Click, IsNewUser(sessions, Some(deviceId)), t1), Click,
                        IsNewUser(sessions, Some(deviceId)), t2).totalUsers == g.totalUsers + 2
  {
  }

  /** Only a click can raise `totalUsers`. */
  lemma OnlyClicksCountUsers(g: GlobalStat, e: UsageEvent, isNewUser: bool, now: int)
    requires e != Click
    ensures GlobalAfter(g, e, isNewUser, now).totalUsers == g.totalUsers
  {
  }

  // ---------------------------------------------------------------------------
  // GET
  // ---------------------------------------------------------------------------

  datatype UsageReport =
    | Simple(totalHelped: nat, totalUsers: nat)
    | Detailed(global: GlobalStat, daily: seq<DailyStat>)
    | UnknownType

  /** `a` is for a later day than `b` (ISO dates order as strings). */
  predicate NewerDay(a: DailyStat, b: DailyStat) {
    LexLess(b.date, a.date)
  }

  /** Newest-first is a strict weak order on day records. */
  lemma NewerDayOrder()
    ensures StrictWeakOrder(NewerDay)
  {
    forall a: DailyStat ensures !NewerDay(a, a) {
      LexLessIrreflexive(a.date);
    }
    forall a: DailyStat, b: DailyStat, c: DailyStat | NewerDay(a, b) && NewerDay(b, c)
      ensures NewerDay(a, c)
    {
      LexLessTransitive(c.date, b.date, a.date);
    }
    forall a: DailyStat, b: DailyStat, c: DailyStat | NewerDay(a, c)
      ensures NewerDay(a, b) || NewerDay(b, c)
    {
      if b.date != a.date && !NewerDay(a, b) {
        LexLessTotal(a.date, b.date);
        LexLessTransitive(c.date, a.date, b.date);
      }
    }
  }

  /** The detailed view's days: ordered by date, newest first, and at most 30 of them. */
  function RecentDays(daily: seq<DailyStat>): (r: seq<DailyStat>)
    ensures |r| == if |daily| <= 30 then |daily| else 30
    ensures forall x :: x in r ==> x in daily
  {
    var sorted := Sort(daily, NewerDay);
    assert forall x :: x in sorted ==> x in multiset(sorted);
    if |sorted| <= 30 then sorted else sorted[..30]
  }

  /** A day record left out of the detailed view is older than every record in it. */
  lemma OmittedDayIsOlder(daily: seq<DailyStat>, d: DailyStat, x: DailyStat)
    requires UniqueDates(daily)
    requires d in daily && d !in RecentDays(daily) && x in RecentDays(daily)
    ensures LexLess(d.date, x.date)
  {
    var s := Sort(daily, NewerDay);
    var r := RecentDays(daily);
    var i :| 0 <= i < |r| && r[i] == x;
    assert s[i] == x;
    assert d.date != x.date by {
      var a :| 0 <= a < |daily| && daily[a] == d;
      assert x in multiset(daily) by {
        assert x in multiset(s);
      }
      var b :| 0 <= b < |daily| && daily[b] == x;
      assert a != b;
    }
    assert !LexLess(x.date, d.date) by {
      NewerDayOrder();
      SortSorted(daily, NewerDay);
      assert d in multiset(s);
      var j :| 0 <= j < |s| && s[j] == d;
      assert j >= |r|;
      assert !NewerDay(s[j], s[i]);
    }
    LexLessTotal(d.date, x.date);
  }

  /**
   * The detailed view lists min(30, n) distinct day records of the table,
   * newest first, and every record it leaves out is older than every record
   * it lists.
   */
  lemma RecentDaysSpec(daily: seq<DailyStat>)
    requires UniqueDates(daily)
    ensures var r := RecentDays(daily);
      && |r| == (if |daily| <= 30 then |daily| else 30)
      && Sorted(r, NewerDay)
      && (forall i :: 0 <= i < |r| ==> r[i] in daily)
      && multiset(r) <= multiset(daily)
      && (forall d, x :: d in daily && d !in r && x in r ==> LexLess(d.date, x.date))
  {
    var s := Sort(daily, NewerDay);
    var r := RecentDays(daily);
    NewerDayOrder();
    SortSorted(daily, NewerDay);
    assert s == r + s[|r|..];
    assert multiset(s) == multiset(r) + multiset(s[|r|..]);
    forall i | 0 <= i < |r| ensures r[i] in daily {
      assert r[i] == s[i];
      assert s[i] in multiset(daily);
    }
    forall d, x | d in daily && d !in r && x in r ensures LexLess(d.date, x.date) {
      OmittedDayIsOlder(daily, d, x);
    }
  }

  /** GET: the type defaults to 'simple' (also when empty); an unknown type is a 400 and creates nothing. */
  method Get(db: Db, reportType: Option<string>) returns (r: UsageReport)
    requires db.Valid()
    modifies db`global
    ensures db.Valid()
    ensures var t := if Truthy(reportType) then reportType.value else "simple";
      && (t == "simple" ==>
            r == Simple(GlobalOrZero(old(db.global)).totalClicks, GlobalOrZero(old(db.global)).totalUsers)
            && db.global == Some(GlobalOrZero(old(db.global))))
      && (t == "detailed" ==>
            r == Detailed(GlobalOrZero(old(db.global)), RecentDays(db.daily))
            && db.global == Some(GlobalOrZero(old(db.global))))
      && (t != "simple" && t != "detailed" ==> r == UnknownType && db.global == old(db.global))
  {
    var t := if Truthy(reportType) then reportType.value else "simple";
    if t == "simple" {
      var g := GetOrCreateGlobalStats(db);
      r := Simple(g.totalClicks, g.totalUsers);
    } else if t == "detailed" {
      var g := GetOrCreateGlobalStats(db);
      r := Detailed(g, RecentDays(db.daily));
    } else {
      r := UnknownType;
    }
  }
}
