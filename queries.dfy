/**
 * The relational store of the bot and the queries run against it.
 *
 * The five tables are the fields of the class `Database`; their key
 * constraints (primary keys, `UNIQUE(watcher_id, watched_id)`,
 * `UNIQUE(user_id, item_name)`, `UNIQUE(watcher_id, watched_id,
 * reminder_type, birthday_year)`) are built into the choice of maps and
 * sets, and the foreign keys are the invariant `Consistent`. Reads are
 * specified by functions of a snapshot `Tables` of the five fields and of
 * the server's query plan.
 */
module Queries {
  import opened Wrappers
  import opened Gregorian

  /** A chat platform user id (a `BIGINT`, compared only for equality). */
  type UserId = int

  /** A row of `users`, keyed by `user_id`. */
  datatype User = User(username: Option<string>, firstName: Option<string>, lastName: Option<string>, botName: Option<string>)

  /** A row of `watchlist`: the watcher follows the watched user. */
  datatype Edge = Edge(watcher: UserId, watched: UserId)

  /** The values of `reminder_type`: 'two_week', 'one_week', 'three_day'. */
  datatype ReminderType = TwoWeek | OneWeek | ThreeDay

  /** A row of `reminder_logs`. */
  datatype LogEntry = LogEntry(watcher: UserId, watched: UserId, kind: ReminderType, year: int)

  /** The key of `gift_preferences`. */
  datatype GiftKey = GiftKey(user: UserId, item: string)

  /** The errors a query can raise. */
  datatype DbError =
    | UserNotFound          // Error('User not found')
    | SelfFollow            // Error('You cannot add yourself to your watchlist')
    | ForeignKeyViolation   // a REFERENCES users(user_id) check failed
    | UniqueViolation       // a UNIQUE constraint was hit by a plain INSERT
    | DateOutOfRange        // DATE(...) or a DATE column received an impossible date
    | ValueTooLong          // a VARCHAR(255) column received a longer value

  /** `item_name VARCHAR(255)`. */
  const MaxItemName := 255

  /**
   * Where the server evaluates the reminder query's `DATE(...)`. Without
   * inlining of the `upcoming_birthdays` CTE it is computed for the joined
   * rows only; PostgreSQL 12 and later inline that CTE and may push
   * `days_until_birthday IN (14, 7, 3)`, which reads only `birthdays`, down
   * to a sequential scan of that table, where every stored birthday is
   * re-dated. Other plans re-date a set between these two.
   */
  datatype Plan = AfterJoin | AtBirthdayScan

  /** A snapshot of the five tables, with the plan the server picks for the reminder query. */
  datatype Tables = Tables(
    users: map<UserId, User>,
    birthdays: map<UserId, Date>,
    watchlist: set<Edge>,
    reminderLogs: set<LogEntry>,
    giftPreferences: map<GiftKey, Option<string>>,
    plan: Plan)

  /** Foreign keys into `users`, valid stored dates, and no self-follow edge. */
  predicate Consistent(t: Tables) {
    && (forall u :: u in t.birthdays ==> u in t.users && IsValid(t.birthdays[u]))
    && (forall e :: e in t.watchlist ==> e.watcher in t.users && e.watched in t.users && e.watcher != e.watched)
    && (forall l :: l in t.reminderLogs ==> l.watcher in t.users && l.watched in t.users)
    && (forall k :: k in t.giftPreferences ==> k.user in t.users)
  }

  /** Some user has this username (`SELECT … FROM users WHERE username = $1` finds a row). */
  predicate HasUsername(users: map<UserId, User>, name: string) {
    exists u :: u in users && users[u].username == Some(name)
  }

  // ---------------------------------------------------------------------
  // getBirthdayReminders

  /** The day count of each reminder type. */
  function Threshold(k: ReminderType): int {
    match k
    case TwoWeek => 14
    case OneWeek => 7
    case ThreeDay => 3
  }

  /** The `CASE days_until_birthday WHEN 14 … WHEN 7 … WHEN 3 … END` of the query. */
  function ReminderTypeFor(days: int): Option<ReminderType> {
    if days == 14 then Some(TwoWeek)
    else if days == 7 then Some(OneWeek)
    else if days == 3 then Some(ThreeDay)
    else None
  }

  /** The CASE picks the type whose threshold is the count, and nothing for any other count. */
  lemma ReminderTypeForIsInverse(days: int, k: ReminderType)
    ensures ReminderTypeFor(days) == Some(k) <==> Threshold(k) == days
    ensures ReminderTypeFor(days).None? <==> days != 14 && days != 7 && days != 3
    ensures ReminderTypeFor(days).Some? ==> days >= 3
  {
  }

  /**
   * `DATE(current_year || '-' || month || '-' || day) - CURRENT_DATE` for a
   * stored birth date, or None where that DATE(...) raises an error.
   */
  function DaysUntilBirthday(birth: Date, today: Date): (r: Option<int>)
    requires IsValid(today)
    ensures r.Some? <==> MakeDate(today.year, birth.month, birth.day).Some?
  {
    match MakeDate(today.year, birth.month, birth.day)
    case None => None
    case Some(d) => Some(DayNumber(d) - DayNumber(today))
  }

  /** A row of `watchlist w JOIN users u ON w.watched_id JOIN birthdays b ON w.watched_id`. */
  predicate Joined(t: Tables, e: Edge) {
    e in t.watchlist && e.watched in t.users && e.watched in t.birthdays
  }

  /** A stored birthday whose re-dating into the current year does not exist. */
  predicate Undated(t: Tables, today: Date, u: UserId) {
    u in t.birthdays && MakeDate(today.year, t.birthdays[u].month, t.birthdays[u].day).None?
  }

  /** Some re-dated birthday has a DATE(...) that does not exist, which fails the whole query. */
  predicate QueryFails(t: Tables, today: Date) {
    match t.plan
    case AfterJoin => exists e :: e in t.watchlist && Joined(t, e) && Undated(t, today, e.watched)
    case AtBirthdayScan => exists u :: u in t.birthdays && Undated(t, today, u)
  }

  /** A joined row that passes `WHERE days_until_birthday IN (14, 7, 3) AND NOT EXISTS (…)`. */
  predicate IsCandidate(t: Tables, today: Date, e: Edge)
    requires IsValid(today)
  {
    && Joined(t, e)
    && e.watcher in t.users
    && var days := DaysUntilBirthday(t.birthdays[e.watched], today);
    && days.Some?
    && ReminderTypeFor(days.value).Some?
    && LogEntry(e.watcher, e.watched, ReminderTypeFor(days.value).value, today.year) !in t.reminderLogs
  }

  /** A result row of getBirthdayReminders. */
  datatype ReminderRow = ReminderRow(
    watcherId: UserId,
    watchedId: UserId,
    watchedUsername: Option<string>,
    watchedFirstName: Option<string>,
    birthDate: Date,
    currentYear: int,
    daysUntil: int,
    watcherUserId: UserId,
    reminderType: ReminderType)

  /** The row the query produces for a candidate edge. */
  function RowOf(t: Tables, today: Date, e: Edge): ReminderRow
    requires IsValid(today) && IsCandidate(t, today, e)
  {
    var birth := t.birthdays[e.watched];
    var days := DaysUntilBirthday(birth, today).value;
    ReminderRow(e.watcher, e.watched, t.users[e.watched].username, t.users[e.watched].firstName,
                birth, today.year, days, e.watcher, ReminderTypeFor(days).value)
  }

  /** The query: an error, or the set of candidate rows (in no particular order). */
  function ReminderRows(t: Tables, today: Date): Result<set<ReminderRow>, DbError>
    requires IsValid(today)
  {
    if QueryFails(t, today) then Failure(DateOutOfRange)
    else Success(set e | e in t.watchlist && IsCandidate(t, today, e) :: RowOf(t, today, e))
  }

  /** The ledger row that records a reminder as sent. */
  function LogOf(r: ReminderRow): LogEntry {
    LogEntry(r.watcherId, r.watchedId, r.reminderType, r.currentYear)
  }

  function LogsOf(rows: set<ReminderRow>): set<LogEntry> {
    set r | r in rows :: LogOf(r)
  }

  /** The user has a stored birthday on 29 February. */
  predicate LeapDayBirthday(t: Tables, u: UserId) {
    u in t.birthdays && t.birthdays[u].month == 2 && t.birthdays[u].day == 29
  }

  /**
   * The query's error comes from 29 February in a common current year: a
   * followed such birthday fails it under every plan, and a failure needs
   * some stored such birthday. After the join exactly the followed ones
   * count; at the birthdays scan every stored one does.
   */
  lemma QueryFailsOnlyOnLeapDay(t: Tables, today: Date)
    requires IsValid(today) && Consistent(t)
    ensures !IsLeapYear(today.year) && (exists e :: Joined(t, e) && LeapDayBirthday(t, e.watched)) ==>
      ReminderRows(t, today).Failure?
    ensures ReminderRows(t, today).Failure? ==> !IsLeapYear(today.year) && exists u :: LeapDayBirthday(t, u)
    ensures t.plan == AfterJoin ==>
      (ReminderRows(t, today).Failure? <==> !IsLeapYear(today.year) && exists e :: Joined(t, e) && LeapDayBirthday(t, e.watched))
    ensures t.plan == AtBirthdayScan ==>
      (ReminderRows(t, today).Failure? <==> !IsLeapYear(today.year) && exists u :: LeapDayBirthday(t, u))
  {
    forall u | u in t.birthdays
      ensures Undated(t, today, u) <==> LeapDayBirthday(t, u) && !IsLeapYear(today.year)
    {
      MakeDateFailsOnlyOnLeapDay(t.birthdays[u], today.year);
    }
  }

  /**
   * The plan decides: a 29 February birthday of a user nobody follows fails
   * the query at the birthdays scan but not after the join.
   */
  lemma UnfollowedLeapDayDependsOnPlan()
    ensures var t := Tables(map[1 := User(None, None, None, None)], map[1 := Date(2000, 2, 29)], {}, {}, map[], AfterJoin);
      var today := Date(2025, 3, 1);
      && Consistent(t) && IsValid(today)
      && ReminderRows(t, today) == Success({})
      && ReminderRows(t.(plan := AtBirthdayScan), today) == Failure(DateOutOfRange)
  {
    var t := Tables(map[1 := User(None, None, None, None)], map[1 := Date(2000, 2, 29)], {}, {}, map[], AfterJoin);
    var today := Date(2025, 3, 1);
    assert !IsLeapYear(2025) && MakeDate(2025, 2, 29).None?;
    assert Undated(t.(plan := AtBirthdayScan), today, 1);
    assert !QueryFails(t, today);
    assert forall r :: r !in ReminderRows(t, today).value;
    assert ReminderRows(t, today).value == {};
  }

  /**
   * What a returned row means: a followed user whose birthday, re-dated
   * into this year, is exactly 14, 7 or 3 days after today, with no ledger
   * row for that type and year.
   */
  lemma CandidateMeaning(t: Tables, today: Date, r: ReminderRow)
    requires IsValid(today) && ReminderRows(t, today).Success? && r in ReminderRows(t, today).value
    ensures Edge(r.watcherId, r.watchedId) in t.watchlist
    ensures r.watcherId in t.users && r.watchedId in t.users && r.watcherUserId == r.watcherId
    ensures r.watchedId in t.birthdays && r.birthDate == t.birthdays[r.watchedId]
    ensures r.watchedUsername == t.users[r.watchedId].username && r.watchedFirstName == t.users[r.watchedId].firstName
    ensures r.currentYear == today.year
    ensures r.daysUntil == Threshold(r.reminderType)
    ensures IsValid(Date(today.year, r.birthDate.month, r.birthDate.day))
    ensures AddDays(today, r.daysUntil) == Date(today.year, r.birthDate.month, r.birthDate.day)
    ensures LogOf(r) !in t.reminderLogs
  {
    var e :| e in t.watchlist && IsCandidate(t, today, e) && r == RowOf(t, today, e);
    var target := MakeDate(today.year, r.birthDate.month, r.birthDate.day).value;
    ReminderTypeForIsInverse(r.daysUntil, r.reminderType);
    DifferenceIsDistance(today, target, r.daysUntil);
  }

  /** Conversely, every such followed birthday is returned. */
  lemma CandidateComplete(t: Tables, today: Date, e: Edge, k: ReminderType)
    requires IsValid(today) && ReminderRows(t, today).Success?
    requires Joined(t, e) && e.watcher in t.users
    requires IsValid(Date(today.year, t.birthdays[e.watched].month, t.birthdays[e.watched].day))
    requires AddDays(today, Threshold(k)) == Date(today.year, t.birthdays[e.watched].month, t.birthdays[e.watched].day)
    requires LogEntry(e.watcher, e.watched, k, today.year) !in t.reminderLogs
    ensures IsCandidate(t, today, e) && RowOf(t, today, e) in ReminderRows(t, today).value
    ensures RowOf(t, today, e).reminderType == k
  {
    BirthdayInDays(t.birthdays[e.watched], today, Threshold(k));
    ReminderTypeForIsInverse(Threshold(k), k);
    assert IsCandidate(t, today, e);
    CandidateIsRow(t, today, e);
  }

  /** A birthday re-dated to n days after today counts n days. */
  lemma BirthdayInDays(b: Date, today: Date, n: nat)
    requires IsValid(today) && IsValid(Date(today.year, b.month, b.day))
    requires AddDays(today, n) == Date(today.year, b.month, b.day)
    ensures DaysUntilBirthday(b, today) == Some(n)
  {
    var target := Date(today.year, b.month, b.day);
    assert MakeDate(today.year, b.month, b.day) == Some(target);
    DifferenceIsDistance(today, target, n);
  }

  /** A candidate edge's row is in the query's result. */
  lemma CandidateIsRow(t: Tables, today: Date, e: Edge)
    requires IsValid(today) && ReminderRows(t, today).Success? && IsCandidate(t, today, e)
    ensures RowOf(t, today, e) in ReminderRows(t, today).value
  {
  }

  /** Without rollover, a birthday already past this year has a negative count and is never returned. */
  lemma PassedBirthdayNeverReturned(t: Tables, today: Date, e: Edge)
    requires IsValid(today) && Joined(t, e)
    requires IsValid(Date(today.year, t.birthdays[e.watched].month, t.birthdays[e.watched].day))
    requires Before(Date(today.year, t.birthdays[e.watched].month, t.birthdays[e.watched].day), today)
    ensures DaysUntilBirthday(t.birthdays[e.watched], today).value < 0
    ensures !IsCandidate(t, today, e)
  {
    var b := t.birthdays[e.watched];
    DifferenceSign(Date(today.year, b.month, b.day), today);
  }

  /** Two returned rows for the same pair of users are the same row. */
  lemma RowsKeyedByEdge(t: Tables, today: Date, r1: ReminderRow, r2: ReminderRow)
    requires IsValid(today) && ReminderRows(t, today).Success?
    requires r1 in ReminderRows(t, today).value && r2 in ReminderRows(t, today).value
    requires r1.watcherId == r2.watcherId && r1.watchedId == r2.watchedId
    ensures r1 == r2
  {
    var e1 :| e1 in t.watchlist && IsCandidate(t, today, e1) && r1 == RowOf(t, today, e1);
    var e2 :| e2 in t.watchlist && IsCandidate(t, today, e2) && r2 == RowOf(t, today, e2);
    assert e1 == e2;
  }

  /** The query does not fail or succeed depending on the ledger. */
  lemma QueryFailsIgnoresLedger(t: Tables, today: Date, logs: set<LogEntry>)
    requires IsValid(today)
    ensures QueryFails(t.(reminderLogs := logs), today) == QueryFails(t, today)
  {
    var t' := t.(reminderLogs := logs);
    forall u ensures Undated(t', today, u) == Undated(t, today, u) {
    }
    forall e ensures Joined(t', e) == Joined(t, e) {
    }
  }

  /**
   * Logging a subset S of the returned rows removes exactly S from a
   * same-day re-query: the logged rows are never offered again and the
   * others still are.
   */
  lemma LoggingRemovesExactly(t: Tables, today: Date, s: set<ReminderRow>)
    requires IsValid(today) && ReminderRows(t, today).Success? && s <= ReminderRows(t, today).value
    ensures ReminderRows(t.(reminderLogs := t.reminderLogs + LogsOf(s)), today)
         == Success(ReminderRows(t, today).value - s)
  {
    var rows := ReminderRows(t, today).value;
    var t' := t.(reminderLogs := t.reminderLogs + LogsOf(s));
    QueryFailsIgnoresLedger(t, today, t'.reminderLogs);
    var rows' := ReminderRows(t', today).value;
    forall r | r in rows' ensures r in rows && r !in s {
      var e :| e in t'.watchlist && IsCandidate(t', today, e) && r == RowOf(t', today, e);
      assert IsCandidate(t, today, e) && r == RowOf(t, today, e);
    }
    forall r | r in rows && r !in s ensures r in rows' {
      var e :| e in t.watchlist && IsCandidate(t, today, e) && r == RowOf(t, today, e);
      forall r2 | r2 in s && LogOf(r2) == LogOf(r) ensures false {
        RowsKeyedByEdge(t, today, r, r2);
      }
      assert IsCandidate(t', today, e) && r == RowOf(t', today, e);
    }
    assert rows' == rows - s;
  }

  /** Once every returned row is logged, a same-day re-query returns nothing. */
  lemma LoggingAllEmptiesQuery(t: Tables, today: Date)
    requires IsValid(today) && ReminderRows(t, today).Success?
    ensures ReminderRows(t.(reminderLogs := t.reminderLogs + LogsOf(ReminderRows(t, today).value)), today) == Success({})
  {
    var rows := ReminderRows(t, today).value;
    LoggingRemovesExactly(t, today, rows);
    assert rows - rows == {};
  }

  // ---------------------------------------------------------------------
  // getWatchlist, getUserGiftPreferences

  /** A result row of getWatchlist (u.username, u.first_name, b.birth_date), with the watched id that tells rows apart. */
  datatype WatchRow = WatchRow(watchedId: UserId, username: Option<string>, firstName: Option<string>, birthDate: Option<Date>)

  /** `… FROM watchlist w JOIN users u … LEFT JOIN birthdays b … WHERE w.watcher_id = $1`. */
  function WatchRows(t: Tables, watcher: UserId): set<WatchRow> {
    set e | e in t.watchlist && e.watcher == watcher && e.watched in t.users ::
      WatchRow(e.watched, t.users[e.watched].username, t.users[e.watched].firstName,
               if e.watched in t.birthdays then Some(t.birthdays[e.watched]) else None)
  }

  /** A result row of getUserGiftPreferences. */
  datatype GiftRow = GiftRow(itemName: string, description: Option<string>)

  /** `SELECT item_name, description FROM gift_preferences WHERE user_id = $1`. */
  function GiftRows(t: Tables, user: UserId): set<GiftRow> {
    set k | k in t.giftPreferences && k.user == user :: GiftRow(k.item, t.giftPreferences[k])
  }

  /** A user's preference rows have distinct item names. */
  lemma GiftRowsKeyedByItem(t: Tables, user: UserId, g1: GiftRow, g2: GiftRow)
    requires g1 in GiftRows(t, user) && g2 in GiftRows(t, user) && g1.itemName == g2.itemName
    ensures g1 == g2
  {
    var k1 :| k1 in t.giftPreferences && k1.user == user && g1 == GiftRow(k1.item, t.giftPreferences[k1]);
    var k2 :| k2 in t.giftPreferences && k2.user == user && g2 == GiftRow(k2.item, t.giftPreferences[k2]);
    assert k1 == k2;
  }

  /** A result row of getUserByUsername. */
  datatype UserRow = UserRow(userId: UserId, username: Option<string>, firstName: Option<string>, lastName: Option<string>)

  // ---------------------------------------------------------------------
  // ORDER BY u.username: code-point order, NULLs last

  predicate StrLe(a: string, b: string) {
    |a| == 0 || (|b| > 0 && (a[0] < b[0] || (a[0] == b[0] && StrLe(a[1..], b[1..]))))
  }

  lemma {:induction false} StrLeTotal(a: string, b: string)
    ensures StrLe(a, b) || StrLe(b, a)
  {
    if |a| > 0 && |b| > 0 && a[0] == b[0] {
      StrLeTotal(a[1..], b[1..]);
    }
  }

  lemma {:induction false} StrLeTransitive(a: string, b: string, c: string)
    requires StrLe(a, b) && StrLe(b, c)
    ensures StrLe(a, c)
  {
    if |a| > 0 && a[0] == b[0] && b[0] == c[0] {
      StrLeTransitive(a[1..], b[1..], c[1..]);
    }
  }

  lemma {:induction false} StrLeReflexive(a: string)
    ensures StrLe(a, a)
  {
    if |a| > 0 {
      StrLeReflexive(a[1..]);
    }
  }

  /** Ascending order on a nullable username, NULL sorting after every string. */
  predicate UsernameLe(a: Option<string>, b: Option<string>) {
    match a
    case None => b.None?
    case Some(x) => b.None? || StrLe(x, b.value)
  }

  predicate SortedByUsername(rows: seq<WatchRow>) {
    forall i, j :: 0 <= i < j < |rows| ==> UsernameLe(rows[i].username, rows[j].username)
  }

  predicate Distinct<T(==)>(xs: seq<T>) {
    forall i, j :: 0 <= i < j < |xs| ==> xs[i] != xs[j]
  }

  lemma UsernameLeReflexive(a: Option<string>)
    ensures UsernameLe(a, a)
  {
    if a.Some? { StrLeReflexive(a.value); }
  }

  lemma UsernameLeTotal(a: Option<string>, b: Option<string>)
    ensures UsernameLe(a, b) || UsernameLe(b, a)
  {
    if a.Some? && b.Some? { StrLeTotal(a.value, b.value); }
  }

  lemma UsernameLeTransitive(a: Option<string>, b: Option<string>, c: Option<string>)
    requires UsernameLe(a, b) && UsernameLe(b, c)
    ensures UsernameLe(a, c)
  {
    if a.Some? && b.Some? && c.Some? { StrLeTransitive(a.value, b.value, c.value); }
  }

  /** m is a row of s whose username sorts no later than any other row's. */
  predicate IsLeast(m: WatchRow, s: set<WatchRow>) {
    m in s && forall o :: o in s ==> UsernameLe(m.username, o.username)
  }

  /** A finite set of rows has a row with the least username. */
  lemma {:induction false} LeastUsernameExists(s: set<WatchRow>)
    requires s != {}
    ensures exists m :: IsLeast(m, s)
    decreases |s|
  {
    var x :| x in s;
    var rest := s - {x};
    if rest == {} {
      assert s == {x};
      UsernameLeReflexive(x.username);
      assert IsLeast(x, s);
    } else {
      LeastUsernameExists(rest);
      var m :| IsLeast(m, rest);
      LeastOfOneMore(x, m, rest);
      assert s == rest + {x};
      if !IsLeast(x, s) {
        assert IsLeast(m, s);
      }
    }
  }

  /** The least of a set with one more row is that row or the old least. */
  lemma LeastOfOneMore(x: WatchRow, m: WatchRow, rest: set<WatchRow>)
    requires IsLeast(m, rest) && x !in rest
    ensures IsLeast(x, rest + {x}) || IsLeast(m, rest + {x})
  {
    UsernameLeReflexive(x.username);
    UsernameLeTotal(x.username, m.username);
    if UsernameLe(x.username, m.username) {
      forall o | o in rest ensures UsernameLe(x.username, o.username) {
        UsernameLeTransitive(x.username, m.username, o.username);
      }
    }
  }

  /** The rows of a result set, listed in some order without repetition. */
  method ListRows<T(==)>(s: set<T>) returns (xs: seq<T>)
    ensures forall x :: x in xs <==> x in s
    ensures Distinct(xs)
  {
    xs := [];
    var rest := s;
    while rest != {}
      invariant rest <= s
      invariant forall x :: x in xs ==> x in s && x !in rest
      invariant forall x :: x in s ==> x in xs || x in rest
      invariant Distinct(xs)
      decreases |rest|
    {
      var x :| x in rest;
      xs := xs + [x];
      rest := rest - {x};
    }
  }

  // ---------------------------------------------------------------------
  // The store

  class Database {
    var users: map<UserId, User>
    var birthdays: map<UserId, Date>
    var watchlist: set<Edge>
    var reminderLogs: set<LogEntry>
    var giftPreferences: map<GiftKey, Option<string>>
    /** The server's plan for the reminder query, fixed for the life of the store. */
    const plan: Plan

    function State(): Tables
      reads this
    {
      Tables(users, birthdays, watchlist, reminderLogs, giftPreferences, plan)
    }

    predicate Valid()
      reads this
    {
      Consistent(State())
    }

    /** The freshly created schema: every table empty. */
    constructor (plan: Plan)
      ensures Valid()
      ensures users == map[] && birthdays == map[] && watchlist == {} && reminderLogs == {} && giftPreferences == map[]
      ensures this.plan == plan
    {
      users, birthdays, watchlist, reminderLogs, giftPreferences := map[], map[], {}, {}, map[];
      this.plan := plan;
    }

    /** saveUser: insert the user, or overwrite all four columns of the existing row. */
    method SaveUser(userId: UserId, username: Option<string>, firstName: Option<string>, lastName: Option<string>, botName: Option<string>)
      requires Valid()
      modifies this
      ensures Valid()
      ensures users == old(users)[userId := User(username, firstName, lastName, botName)]
      ensures userId in users && users[userId] == User(username, firstName, lastName, botName)
      ensures |users| == |old(users)| + (if userId in old(users) then 0 else 1)
      ensures birthdays == old(birthdays) && watchlist == old(watchlist)
      ensures reminderLogs == old(reminderLogs) && giftPreferences == old(giftPreferences)
    {
      users := users[userId := User(username, firstName, lastName, botName)];
    }

    /** setBirthday: insert or overwrite the user's one birth date. */
    method SetBirthday(userId: UserId, birthDate: Date) returns (r: Outcome<DbError>)
      requires Valid()
      modifies this
      ensures Valid()
      ensures !IsValid(birthDate) ==> r == Fail(DateOutOfRange)
      ensures IsValid(birthDate) && userId !in users ==> r == Fail(ForeignKeyViolation)
      ensures IsValid(birthDate) && userId in users ==> r == Pass
      ensures r.Pass? ==> birthdays == old(birthdays)[userId := birthDate] && GetBirthday(userId) == Some(birthDate)
      ensures r.Fail? ==> birthdays == old(birthdays)
      ensures users == old(users) && watchlist == old(watchlist)
      ensures reminderLogs == old(reminderLogs) && giftPreferences == old(giftPreferences)
    {
      if !IsValid(birthDate) {
        return Fail(DateOutOfRange);
      }
      if userId !in users {
        return Fail(ForeignKeyViolation);
      }
      birthdays := birthdays[userId := birthDate];
      r := Pass;
    }

    /** getBirthday: the stored date, or undefined when there is no row. */
    function GetBirthday(userId: UserId): (r: Option<Date>)
      reads this
      ensures r.Some? <==> userId in birthdays
      ensures r.Some? ==> r.value == birthdays[userId]
      ensures Valid() && r.Some? ==> IsValid(r.value) && userId in users
    {
      if userId in birthdays then Some(birthdays[userId]) else None
    }

    /**
     * `SELECT user_id FROM users WHERE username = $1` and `rows[0]`.
     * Usernames are not unique in the schema, so any matching user may come first.
     */
    method ResolveUsername(name: string) returns (id: Option<UserId>)
      ensures id.None? <==> !HasUsername(users, name)
      ensures id.Some? ==> id.value in users && users[id.value].username == Some(name)
    {
      if u :| u in users && users[u].username == Some(name) {
        id := Some(u);
      } else {
        id := None;
      }
    }

    /** addToWatchlist: resolve the username, refuse a self-follow, insert the edge unless present. */
    method AddToWatchlist(watcherId: UserId, watchedUsername: string) returns (r: Outcome<DbError>)
      requires Valid()
      modifies this
      ensures Valid()
      ensures r == Fail(UserNotFound) <==> !HasUsername(users, watchedUsername)
      ensures r == Fail(SelfFollow) ==> watcherId in users && users[watcherId].username == Some(watchedUsername)
      ensures r == Fail(ForeignKeyViolation) ==> watcherId !in users
      ensures r.Pass? ==> watcherId in users
      ensures r.Fail? ==> r.error in {UserNotFound, SelfFollow, ForeignKeyViolation}
      ensures HasUsername(users, watchedUsername) && watcherId in users && users[watcherId].username != Some(watchedUsername)
              ==> r.Pass?
      ensures HasUsername(users, watchedUsername) && watcherId !in users ==> r == Fail(ForeignKeyViolation)
      ensures HasUsername(users, watchedUsername) && watcherId in users
              && (forall u :: u in users && users[u].username == Some(watchedUsername) ==> u == watcherId)
              ==> r == Fail(SelfFollow)
      ensures r.Pass? ==> exists id :: id in users && users[id].username == Some(watchedUsername) && id != watcherId
                                       && watchlist == old(watchlist) + {Edge(watcherId, id)}
      ensures r.Fail? ==> watchlist == old(watchlist)
      ensures users == old(users) && birthdays == old(birthdays)
      ensures reminderLogs == old(reminderLogs) && giftPreferences == old(giftPreferences)
    {
      var id := ResolveUsername(watchedUsername);
      if id.None? {
        return Fail(UserNotFound);
      }
      var watchedId := id.value;
      if watcherId == watchedId {
        return Fail(SelfFollow);
      }
      if watcherId !in users {
        return Fail(ForeignKeyViolation);
      }
      watchlist := watchlist + {Edge(watcherId, watchedId)};
      r := Pass;
    }

    /** removeFromWatchlist: resolve the username, then delete that one edge if it is there. */
    method RemoveFromWatchlist(watcherId: UserId, watchedUsername: string) returns (r: Outcome<DbError>)
      requires Valid()
      modifies this
      ensures Valid()
      ensures r.Fail? <==> !HasUsername(users, watchedUsername)
      ensures r.Fail? ==> r.error == UserNotFound && watchlist == old(watchlist)
      ensures r.Pass? ==> exists id :: id in users && users[id].username == Some(watchedUsername)
                                       && watchlist == old(watchlist) - {Edge(watcherId, id)}
      ensures users == old(users) && birthdays == old(birthdays)
      ensures reminderLogs == old(reminderLogs) && giftPreferences == old(giftPreferences)
    {
      var id := ResolveUsername(watchedUsername);
      if id.None? {
        return Fail(UserNotFound);
      }
      watchlist := watchlist - {Edge(watcherId, id.value)};
      r := Pass;
    }

    /** getWatchlist: the watcher's followed users with their birth dates, ordered by username. */
    method GetWatchlist(watcherId: UserId) returns (rows: seq<WatchRow>)
      ensures forall w :: w in rows <==> w in WatchRows(State(), watcherId)
      ensures Distinct(rows)
      ensures SortedByUsername(rows)
    {
      var all := WatchRows(State(), watcherId);
      var rest := all;
      rows := [];
      while rest != {}
        invariant rest <= all
        invariant forall w :: w in rows ==> w in all && w !in rest
        invariant forall w :: w in all ==> w in rows || w in rest
        invariant Distinct(rows)
        invariant SortedByUsername(rows)
        invariant forall i, w :: 0 <= i < |rows| && w in rest ==> UsernameLe(rows[i].username, w.username)
        decreases |rest|
      {
        LeastUsernameExists(rest);
        var m :| IsLeast(m, rest);
        rows := rows + [m];
        rest := rest - {m};
      }
    }

    /** getBirthdayReminders: the candidate rows in some order, or the query's error. */
    method GetBirthdayReminders(today: Date) returns (r: Result<seq<ReminderRow>, DbError>)
      requires IsValid(today)
      ensures r.Failure? <==> ReminderRows(State(), today).Failure?
      ensures r.Failure? ==> r.error == DateOutOfRange
      ensures r.Success? ==> (forall x :: x in r.value <==> x in ReminderRows(State(), today).value) && Distinct(r.value)
    {
      match ReminderRows(State(), today)
      case Failure(err) =>
        r := Failure(err);
      case Success(rows) =>
        var xs := ListRows(rows);
        r := Success(xs);
    }

    /** logReminder: a plain INSERT into the ledger, which fails on a repeated key. */
    method LogReminder(watcherId: UserId, watchedId: UserId, kind: ReminderType, year: int) returns (r: Outcome<DbError>)
      requires Valid()
      modifies this
      ensures Valid()
      ensures LogEntry(watcherId, watchedId, kind, year) in old(reminderLogs) ==> r == Fail(UniqueViolation)
      ensures LogEntry(watcherId, watchedId, kind, year) !in old(reminderLogs) ==>
        r == if watcherId in users && watchedId in users then Pass else Fail(ForeignKeyViolation)
      ensures reminderLogs == if r.Pass? then old(reminderLogs) + {LogEntry(watcherId, watchedId, kind, year)} else old(reminderLogs)
      ensures users == old(users) && birthdays == old(birthdays)
      ensures watchlist == old(watchlist) && giftPreferences == old(giftPreferences)
    {
      var entry := LogEntry(watcherId, watchedId, kind, year);
      if entry in reminderLogs {
        return Fail(UniqueViolation);
      }
      if watcherId !in users || watchedId !in users {
        return Fail(ForeignKeyViolation);
      }
      reminderLogs := reminderLogs + {entry};
      r := Pass;
    }

    /** addGiftPreference: insert the item, or overwrite its description. */
    method AddGiftPreference(userId: UserId, itemName: string, description: Option<string>) returns (r: Outcome<DbError>)
      requires Valid()
      modifies this
      ensures Valid()
      ensures r == if |itemName| > MaxItemName then Fail(ValueTooLong)
                   else if userId !in users then Fail(ForeignKeyViolation)
                   else Pass
      ensures giftPreferences == if r.Pass? then old(giftPreferences)[GiftKey(userId, itemName) := description]
                                 else old(giftPreferences)
      ensures r.Pass? ==> GiftRow(itemName, description) in GiftRows(State(), userId)
      ensures r.Pass? ==> forall d :: GiftRow(itemName, d) in GiftRows(State(), userId) ==> d == description
      ensures users == old(users) && birthdays == old(birthdays)
      ensures watchlist == old(watchlist) && reminderLogs == old(reminderLogs)
    {
      if |itemName| > MaxItemName {
        return Fail(ValueTooLong);
      }
      if userId !in users {
        return Fail(ForeignKeyViolation);
      }
      giftPreferences := giftPreferences[GiftKey(userId, itemName) := description];
      r := Pass;
    }

    /** removeGiftPreference: delete exactly the (user, item) row, if any. */
    method RemoveGiftPreference(userId: UserId, itemName: string)
      requires Valid()
      modifies this
      ensures Valid()
      ensures giftPreferences == old(giftPreferences) - {GiftKey(userId, itemName)}
      ensures forall d :: GiftRow(itemName, d) !in GiftRows(State(), userId)
      ensures users == old(users) && birthdays == old(birthdays)
      ensures watchlist == old(watchlist) && reminderLogs == old(reminderLogs)
    {
      giftPreferences := giftPreferences - {GiftKey(userId, itemName)};
    }

    /** getUserGiftPreferences: the user's items and descriptions, in no particular order. */
    method GetUserGiftPreferences(userId: UserId) returns (rows: seq<GiftRow>)
      ensures forall g :: g in rows <==> g in GiftRows(State(), userId)
      ensures Distinct(rows)
      ensures forall i, j :: 0 <= i < j < |rows| ==> rows[i].itemName != rows[j].itemName
    {
      rows := ListRows(GiftRows(State(), userId));
      forall i, j | 0 <= i < j < |rows| ensures rows[i].itemName != rows[j].itemName {
        if rows[i].itemName == rows[j].itemName {
          GiftRowsKeyedByItem(State(), userId, rows[i], rows[j]);
        }
      }
    }

    /** getUserByUsername: some user with that username, or undefined. */
    method GetUserByUsername(name: string) returns (u: Option<UserRow>)
      ensures u.None? <==> !HasUsername(users, name)
      ensures u.Some? ==> u.value.userId in users && users[u.value.userId].username == Some(name)
                          && u.value == UserRow(u.value.userId, Some(name), users[u.value.userId].firstName, users[u.value.userId].lastName)
    {
      var id := ResolveUsername(name);
      match id
      case None =>
        u := None;
      case Some(x) =>
        u := Some(UserRow(x, users[x].username, users[x].firstName, users[x].lastName));
    }
  }

  /** Following the same uniquely named user twice leaves one edge, as following once does. */
  method FollowTwice(db: Database, watcherId: UserId, name: string) returns (first: Outcome<DbError>, second: Outcome<DbError>)
    requires db.Valid()
    requires forall u, v :: u in db.users && v in db.users && db.users[u].username == Some(name) && db.users[v].username == Some(name) ==> u == v
    modifies db
    ensures db.Valid()
    ensures first == second
    ensures first.Pass? ==> exists id :: db.watchlist == old(db.watchlist) + {Edge(watcherId, id)}
    ensures first.Fail? ==> db.watchlist == old(db.watchlist)
  {
    first := db.AddToWatchlist(watcherId, name);
    ghost var afterFirst := db.watchlist;
    second := db.AddToWatchlist(watcherId, name);
    assert first.Pass? ==> db.watchlist == afterFirst;
  }
}
