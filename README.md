# kado-chi-begiram-bot: the store, the reminder sweep and the command handlers

This project models the core of a Telegram birthday bot. Users register a
birthday, follow other users by username, and keep a list of gift wishes.
Once a day the bot sends each follower a reminder 14, 7 and 3 days before a
followed user's birthday. A ledger records what was sent, so that each
reminder goes out once per year. A small support desk forwards user messages
to an admin and carries the admin's answers back.

The model has these modules:

- `Queries` (queries.dfy). The five PostgreSQL tables are the fields of the
  class `Database`. Keys are built into maps and sets. The invariant
  `Valid` holds the schema's foreign keys, and also the no-self-follow rule.
  The schema has no CHECK for that rule: `addToWatchlist` enforces it, and
  every method keeps `Valid`.
  - Every statement of `queries.js` is a method that updates those fields.
  - Reads are specified by functions of a `Tables` snapshot.
  - The reminder query is the function `ReminderRows`. Lemmas state what a
    returned row means and how logging removes rows from a same-day
    re-query.
- `Gregorian` (gregorian.dfy). Proleptic Gregorian day numbers, `DATE(...)`
  validity, and adding days. These are needed because the query computes
  days as `DATE(year-month-day) - CURRENT_DATE`.
- `Text` (text.dfy). The JavaScript string operations the handlers use:
  - `trim` and `split`, with round-trip lemmas;
  - `join`;
  - `replace` with a string pattern, which replaces only the first
    occurrence;
  - template interpolation of `null` and `undefined`;
  - decimal rendering.
- `Watchlist` (watchlist.dfy). The `/watch`, `/unwatch` and `/watchlist`
  handlers, the Persian month table, the reminder texts, and the sweep
  `sendBirthdayReminders`. The sweep is a loop that sends and then logs,
  and stops at the first failure.
- `Gifts` (gifts.dfy). Parsing of `/addgift item | description`, the
  preference lists, and the four gift handlers.
- `Support` (support.dfy). The per-user conversation state `userStates` is
  the field of the class `SupportDesk`. The module also covers forwarding to
  the admin, parsing of `/reply TICKET message`, and the ticket list.
- `Wrappers` (wrappers.dfy). `Option`, `Result` and `Outcome`.

Outside effects are parameters:

- a message send is `delivers(chat, text)`, which says whether that send
  succeeds, and an edit of the support keyboard is `edited`;
- the database server's plan for the reminder query is the `plan` of the
  store, fixed when it is created;
- the Jalali calendar conversion is `jalaali`;
- the localised date of a ticket is `showDate`;
- the answers of the ticket store (`getUserById`, `createSupportTicket`,
  `updateSupportTicket`, `getUserTickets`) are `profile`, `ticket`,
  `ticketUser` and the ticket rows.

These are the places where the code departs from the documented intent. The model follows the code in each, and the lemmas about
`ReminderRows` make the consequences explicit:

- The query re-dates the birthday into the current Gregorian year with no
  rollover, so a birthday already past this year is never reminded of
  (`Queries.PassedBirthdayNeverReturned`).
- A followed 29 February birthday in a common year makes `DATE(...)` fail,
  and that fails the whole query for everyone. Depending on the server's
  plan, an unfollowed 29 February birthday can fail it too
  (`Queries.QueryFailsOnlyOnLeapDay`, `Queries.UnfollowedLeapDayDependsOnPlan`).
- The recurring anchor is the Gregorian month and day, not the Jalali one.
- Usernames are not unique in the schema. A username lookup takes whichever
  row comes first (`Queries.Database.ResolveUsername`).
- A failed send is not confined to its own reminder. The exception leaves
  the loop, so later candidates wait too. The rows sent before the failure
  stay logged (`Watchlist.SendBirthdayReminders`).

## Model

| member | source | states |
|---|---|---|
| Queries.Database.constructor | src/database/init.js:15-70 | The freshly created schema has all five tables empty, satisfies the key and foreign-key invariant, and keeps the given query plan. |
| Queries.Database.SaveUser | src/database/queries.js:4-12 | The upsert stores exactly the four given columns under the id, whether the row existed or not. The user count grows by one only for a new id. No other table changes. |
| Queries.Database.SetBirthday | src/database/queries.js:15-23 | An impossible date fails with a date error. An unknown user violates the foreign key. Only then does the upsert overwrite the one stored date, which `GetBirthday` then returns. |
| Queries.Database.GetBirthday | src/database/queries.js:25-29 | Returns a date exactly when the user has a row, and then it is that row's date; otherwise undefined. In a consistent store a returned date is a valid calendar date and belongs to an existing user. |
| Queries.Database.ResolveUsername | src/database/queries.js:33-40 | Finds nothing exactly when no user has the name; otherwise some user with that name. |
| Queries.Database.AddToWatchlist | src/database/queries.js:32-52 | Fails with not-found exactly when no user has the name, and with self-follow when the resolved user is the watcher. An unknown watcher violates the foreign key. Otherwise the edge is added once, with `DO NOTHING` on a repeat. A failure changes nothing. |
| Queries.Database.RemoveFromWatchlist | src/database/queries.js:54-65 | Fails exactly when the name is unknown. Otherwise exactly the one edge to the resolved user is removed, whether or not it was there. |
| Queries.Database.GetWatchlist | src/database/queries.js:67-78 | Returns exactly the rows of the join (the birth date is absent without a `birthdays` row), without repetition, in ascending username order with NULLs last. |
| Queries.Database.GetBirthdayReminders | src/database/queries.js:80-130 | Fails exactly when the query specification fails under the store's plan. Otherwise it returns exactly the specified candidate rows, each once. |
| Queries.Database.LogReminder | src/database/queries.js:132-138 | A plain INSERT. A repeated ledger key fails with a unique violation, and an unknown user with a foreign-key violation. Otherwise exactly that entry is added. |
| Queries.Database.AddGiftPreference | src/database/queries.js:141-149 | An item longer than 255 characters or an unknown user fails. Otherwise the item's description is inserted or overwritten, and the user's rows then show that item with exactly that description. |
| Queries.Database.RemoveGiftPreference | src/database/queries.js:151-154 | Deletes exactly the (user, item) row. Afterwards no row of the user has that item. |
| Queries.Database.GetUserGiftPreferences | src/database/queries.js:156-160 | Returns exactly the user's rows, without repetition and with pairwise different item names. |
| Queries.Database.GetUserByUsername | src/database/queries.js:162-166 | Undefined exactly when no user has the name; otherwise that user's id and columns. |
| Queries.FollowTwice | src/database/queries.js:46-51 | For a uniquely named user, following twice gives the same outcome both times and leaves at most the one new edge. |
| Queries.ListRows | src/database/queries.js:127-129 | An unordered result set is turned into a list holding each row exactly once. |
| Queries.ReminderTypeForIsInverse | src/database/queries.js:106-110 | The CASE yields the type whose threshold is the day count (14, 7, 3), and nothing for every other count. |
| Queries.DaysUntilBirthday | src/database/queries.js:91-97 | A count exists exactly when the birthday's month and day form a valid date in the current year. |
| Queries.QueryFailsOnlyOnLeapDay | src/database/queries.js:81-126 | In a common year, a followed 29 February birthday fails the query under every plan, and a failure needs some stored 29 February birthday in a common year. When `DATE(...)` is computed after the joins, the query fails exactly on a followed one. When it is computed at the scan of `birthdays`, the query fails exactly on any stored one. |
| Queries.UnfollowedLeapDayDependsOnPlan | src/database/queries.js:81-126 | A store whose only birthday is an unfollowed 29 February, queried on 2025-03-01, gives no rows after the joins but fails at the scan of `birthdays`. |
| Queries.CandidateMeaning | src/database/queries.js:80-130 | A returned row is a followed edge between existing users. Its birthday, re-dated into this year, lies exactly its type's threshold days after today. Its columns are the joined ones, and the ledger has no entry for its type and year. |
| Queries.CandidateComplete | src/database/queries.js:100-126 | Conversely, every followed birthday at exactly 14, 7 or 3 days with no ledger entry for that type is returned, with that type. |
| Queries.BirthdayInDays | src/database/queries.js:91-97 | A birthday falling n days after today gets the count n. |
| Queries.CandidateIsRow | src/database/queries.js:113-126 | Each edge passing the WHERE clause contributes its row to the result. |
| Queries.PassedBirthdayNeverReturned | src/database/queries.js:91-97 | A birthday already past this calendar year has a negative count and is never a candidate. |
| Queries.RowsKeyedByEdge | src/database/queries.js:100-113 | Two returned rows for the same watcher and watched user are the same row. |
| Queries.QueryFailsIgnoresLedger | src/database/queries.js:114-126 | Whether the query fails does not depend on the ledger. |
| Queries.LoggingRemovesExactly | src/database/queries.js:114-126 | Logging any subset of the returned rows removes exactly that subset from a same-day re-query. |
| Queries.LoggingAllEmptiesQuery | src/database/queries.js:114-126 | Once every returned row is logged, a same-day re-query returns nothing. |
| Queries.GiftRowsKeyedByItem | src/database/init.js:44 | Two preference rows of one user with the same item name are the same row. |
| Queries.StrLeTotal | src/database/queries.js:74 | The username order is total. |
| Queries.StrLeTransitive | src/database/queries.js:74 | The username order is transitive. |
| Queries.StrLeReflexive | src/database/queries.js:74 | The username order is reflexive. |
| Queries.UsernameLeTotal | src/database/queries.js:74 | The order with NULLs last is total. |
| Queries.UsernameLeTransitive | src/database/queries.js:74 | The order with NULLs last is transitive. |
| Queries.LeastUsernameExists | src/database/queries.js:74 | Every nonempty set of rows has a row whose username sorts first. |
| Gregorian.MonthsMakeYear | src/database/queries.js:91-97 | The twelve month lengths add up to the year length, 366 in a leap year and 365 otherwise, and so do the days before December plus December. |
| Gregorian.YearLength | src/database/queries.js:91-97 | 1 January of the next year is the day after 31 December, and exactly one year length after 1 January of this year. |
| Gregorian.DaysInMonth | src/database/queries.js:91-97 | A month has 28 to 31 days. February has 29 exactly in leap years. |
| Gregorian.MakeDateOfAddDays | src/database/queries.js:91-97 | `DATE(...)` of the fields of any date some number of days after a valid date succeeds and denotes that date. |
| Gregorian.DaysBeforeYearIsSum | src/database/queries.js:91-97 | The closed-form count of days before a year equals the year-by-year sum of year lengths. |
| Gregorian.SuccIsNextDay | src/database/queries.js:91-97 | The next day is valid, comes after the day in the calendar, and has the next day number. |
| Gregorian.AddDaysCounts | src/database/queries.js:91-97 | Adding n days gives a valid date whose day number is n larger. |
| Gregorian.DayNumberMonotone | src/database/queries.js:91-97 | The day number strictly increases in calendar order. |
| Gregorian.DayNumberInjective | src/database/queries.js:91-97 | Different valid dates have different day numbers. |
| Gregorian.DifferenceSign | src/database/queries.js:91-97 | The date difference is negative exactly when the first date is earlier, and zero exactly when the dates are equal. |
| Gregorian.DifferenceIsDistance | src/database/queries.js:91-97 | A difference of n days holds exactly when the later date is today plus n days. |
| Gregorian.MakeDateFailsOnlyOnLeapDay | src/database/queries.js:91-97 | Re-dating a valid birth date into another year fails if and only if it is 29 February and that year is common. |
| Gregorian.KnownValues | src/database/queries.js:91-97 | 2000 and 2024 are leap years, 1900 and 2025 are not. 1970-01-01 is day 719162. 28 February to 1 March spans 2 days in 2000 and 1 day in 1900. |
| Text.Trim | src/commands/gifts.js:6 | The result has no space at either end and is the input with only spaces cut off its ends. |
| Text.TrimUnique | src/commands/gifts.js:6 | Any way of cutting only spaces off both ends that leaves a trimmed middle gives the result of `trim`. |
| Text.TrimEmpty | src/commands/gifts.js:8 | `trim` gives "" exactly for an all-space string. |
| Text.TrimIdempotent | src/commands/watchlist.js:31 | Trimming twice is trimming once. |
| Text.TrimmedArg | src/commands/gifts.js:24-26 | `match[1]?.trim()` followed by the falsiness test gives nothing exactly for a missing or blank argument; otherwise the nonempty trimmed text. |
| Text.Find | src/commands/watchlist.js:38 | `indexOf` gives the first position where the pattern occurs, or nothing when it never occurs. |
| Text.RemoveFirstChar | src/commands/watchlist.js:38 | `replace(c, '')` with a one-character pattern deletes exactly the first c and leaves a string without c unchanged. |
| Text.RemoveFirstCharCount | src/commands/watchlist.js:38 | `replace(c, '')` takes one c out of the string's characters, if there is one, and keeps all others. |
| Text.IndexOf | src/commands/support.js:139 | The result is the position of the first c, or the length when there is none. |
| Text.Split | src/commands/gifts.js:6 | `split` gives at least one piece, and no piece contains the separator. |
| Text.JoinSplit | src/commands/support.js:139-140 | Joining the pieces of a split with the same character gives back the string. |
| Text.SplitJoin | src/commands/watchlist.js:102 | Splitting a join of separator-free pieces gives back the pieces. |
| Text.SplitHead | src/commands/support.js:139 | The first piece is the text before the first separator. There is more than one piece exactly when the separator occurs, and the rest of the pieces split what follows it. |
| Text.SplitSecond | src/commands/gifts.js:6 | The second piece is the text between the first and the second separator. |
| Text.JoinTerminated | src/commands/support.js:192-197 | Lines joined by a separator, with an empty last line, read as each line followed by the separator. |
| Text.NatToString | src/commands/watchlist.js:99 | `${n}` is a nonempty string of decimal digits with no leading zero: it starts with '0' exactly when n is 0, and then it is that single digit. |
| Text.DecimalRoundTrip | src/commands/watchlist.js:99 | Reading `${n}` back as a decimal number gives n. |
| Watchlist.MonthName | src/commands/watchlist.js:5-18 | `PERSIAN_MONTHS` names exactly the keys 1 to 12, each with a one-line name. |
| Watchlist.MonthNamesDistinct | src/commands/watchlist.js:5-18 | The twelve month names are pairwise different. |
| Watchlist.MonthText | src/commands/watchlist.js:99 | Shows the name of the 0-based Jalali month, and never a newline. |
| Watchlist.CleanUsername | src/commands/watchlist.js:38 | The cleanup removes exactly the first '@', leaves a name without '@' unchanged, and keeps every other character. |
| Watchlist.CleanUsernameStripsOneAt | src/commands/watchlist.js:38 | "@name" is cleaned to name, so a second '@' survives. |
| Watchlist.Attempt | src/commands/watchlist.js:33-35 | A send goes out as given exactly when Telegram accepts it, and otherwise nothing goes out. |
| Watchlist.SendOrFallback | src/commands/watchlist.js:40-52 | An awaited send goes out exactly when it is accepted. Otherwise the `catch` text goes out exactly when that is accepted. Nothing goes out only when both are refused, and at most one message is sent. |
| Watchlist.WatchHandler | src/commands/watchlist.js:28-55 | A blank argument gets a single attempt at the usage text and changes nothing. An unknown name gets not-found, changing nothing. An unknown watcher gets the generic failure text. A watcher who is the only user with the name gets the self-follow reply, changing nothing. Other users with the name get an edge from the watcher to one of them, and the trimmed argument is echoed. If the watcher shares the name with others, the result is one of those two outcomes. If the confirmation is refused, the edge stays and the generic failure text is tried. |
| Watchlist.UnwatchHandler | src/commands/watchlist.js:57-81 | A blank argument gets the usage text. An unknown name gets not-found and changes nothing. Otherwise exactly the edge to the resolved user is removed and confirmed. A refused confirmation falls back to the removal-failure text. |
| Watchlist.ListWatchlistHandler | src/commands/watchlist.js:83-111 | A user who follows nobody gets one attempt at the empty-list text. Otherwise the listing of the followed users is sent, each once and ordered by username, and it never contains the empty-list text. A refused listing falls back to the listing-failure text. |
| Watchlist.WatchLineShape | src/commands/watchlist.js:94-101 | Each line starts with the bullet, the display name and the birth-date label. The next character is ':' exactly when a birth date is known. |
| Watchlist.WatchLineOneLine | src/commands/watchlist.js:94-101 | A line has no newline when the names have none. |
| Watchlist.ListMessageLines | src/commands/watchlist.js:102-105 | The listing is the header followed by a body that splits back into exactly one line per followed user, in order. |
| Watchlist.ListMessageHeadIsNotEmptyReply | src/commands/watchlist.js:88-105 | The listing of a nonempty list differs from the empty-list reply. |
| Watchlist.ReminderMessageNamesKind | src/commands/watchlist.js:125-135 | The reminder's type can be read back from its message: two weeks, one week and three days lead with different words. |
| Watchlist.SuggestHintOnlyForThreeDays | src/commands/watchlist.js:125-135 | A message ends with the `/suggest @username` hint if and only if it is the three-day reminder. |
| Watchlist.DeliveredPrefix | src/commands/watchlist.js:116-147 | Counts the leading rows whose sends succeed. The row after them, if any, is the first failing send. |
| Watchlist.SendBirthdayReminders | src/commands/watchlist.js:114-148 | A failing query sends and changes nothing. Otherwise every candidate is enumerated once, and the rows up to the first failing send are sent in order and logged. A same-day query then returns exactly the rest, starting with the failed row, and nothing after a complete sweep. |
| Watchlist.DeliverAndLog | src/commands/watchlist.js:116-143 | The loop sends, then logs, each row in turn and stops at the first failed send. Only the ledger changes, gaining exactly the processed rows. |
| Watchlist.LogSent | src/commands/watchlist.js:138-143 | Logging a candidate row whose entry is new succeeds and adds exactly that entry. |
| Watchlist.RowsLogFreshly | src/commands/watchlist.js:138-143 | Logging the query's rows in order never hits the ledger's unique key or a missing user. |
| Watchlist.SweepOutcome | src/commands/watchlist.js:114-148 | After the first n rows are logged, a same-day query returns the remaining rows. Row n is among them, and none remain when n is all of them. |
| Watchlist.SweepTwice | src/commands/watchlist.js:114-148 | With every send succeeding, a sweep sends one reminder per candidate, and a second sweep on the same day sends nothing. |
| Watchlist.DistinctCard | src/commands/watchlist.js:117 | A list without repetition has as many elements as its set. |
| Gifts.NonBlank | src/commands/gifts.js:6-13 | A trimmed field is absent exactly when it is all spaces; otherwise it is the nonempty trimmed text. |
| Gifts.ParseAddGiftFields | src/commands/gifts.js:6-11 | The item is the trimmed text before the first bar character, and blank text means usage. The description is the trimmed text between the first and second bar, or null when it is missing or blank. The item never contains a bar. |
| Gifts.ParseOneField | src/commands/gifts.js:6-13 | Text without a bar character is the item alone, with no description. |
| Gifts.ParseTwoFields | src/commands/gifts.js:6-13 | For a, a bar character, then b: the item is a trimmed and the description is the first field of b, trimmed. |
| Gifts.ParseAddGiftRoundTrip | src/commands/gifts.js:6-13 | Typing the item, a space, a bar, a space and the description (or the item alone) gives back exactly that item and description. |
| Gifts.ExtraFieldsIgnored | src/commands/gifts.js:6 | Fields after the second are ignored. |
| Gifts.TrimmedIsTrim | src/commands/gifts.js:6 | A nonempty trimmed string trims to itself. |
| Gifts.GiftLineShape | src/commands/gifts.js:50-52 | A line starts with the bullet and the item name, and has no newline when the fields have none. |
| Gifts.GiftListLines | src/commands/gifts.js:49-56 | The list splits back into one line per preference, each starting with the bullet and its item name. |
| Gifts.AddGiftHandler | src/commands/gifts.js:3-19 | A missing argument gets the generic error, and a blank item the usage text, both changing nothing. Otherwise the parsed item is upserted with its description or null and confirmed, and a refused confirmation falls back to the generic error. A store error (an overlong item, an unknown user) gets the generic error. |
| Gifts.RemoveGiftHandler | src/commands/gifts.js:21-37 | A blank argument gets the usage text. Otherwise exactly that item is deleted and the removal is confirmed, with the generic error if the confirmation is refused. |
| Gifts.ListGiftsHandler | src/commands/gifts.js:39-61 | The "none yet" reply comes exactly when the user has no preferences. Otherwise the listing shows each preference and each item name once, with the generic error if the listing is refused. |
| Gifts.SuggestGiftsHandler | src/commands/gifts.js:63-99 | A blank argument gets usage, and an unknown user not-found. For a resolved user, the reply is "hasn't added" exactly when they have no preferences. Otherwise it is their list headed by the typed name, with each item once, and the generic error if the list is refused. |
| Support.CategoryOfButton | src/commands/support.js:38 | The callback data "support_" + c yields the category c. |
| Support.CallbackTitle | src/commands/support.js:14-19 | The callback data "support_" + c has a title exactly when c is one of the six buttons' categories. |
| Support.SupportDesk.constructor | src/commands/support.js:5 | The state map starts empty. |
| Support.SupportDesk.HandleSupportCallback | src/commands/support.js:34-72 | The user now waits with the chosen category, replacing any earlier one. An accepted edit shows the category prompt and sends nothing. A refused edit shows nothing and makes one attempt at the error text to the chat. |
| Support.SupportDesk.HandleUserMessage | src/commands/support.js:74-130 | A user who is not waiting is ignored and nothing is sent. Otherwise the admin message and then the confirmation are sent. The state is deleted exactly when the lookup, the ticket and both sends succeed. Any failure sends the error text instead. |
| Support.SupportConversation | src/commands/support.js:34-123 | Choosing a category and then writing, with every step succeeding, removes the user's state and sends exactly the admin message under that category and the confirmation. |
| Support.UserInfoShape | src/commands/support.js:85 | "@username" when the username is set; otherwise a nonempty name followed by the id in parentheses. |
| Support.OutgoingFor | src/commands/support.js:84-120 | The texts exist exactly when both the user lookup and the ticket creation succeed. |
| Support.ForwardDoneIffDelivered | src/commands/support.js:112-123 | The state is cleared if and only if both texts exist and are delivered, and those two sends are then all that is sent. |
| Support.ForwardFailureSends | src/commands/support.js:112-128 | A failed forwarding sends at most two messages: the error text to the user's chat, or the admin message. |
| Support.ParseReply | src/commands/support.js:139-145 | Accepted exactly when the first space comes after a nonempty ticket and is followed by text. The ticket is the text before that space and the message exactly the text after it. |
| Support.ParseReplyRoundTrip | src/commands/support.js:139-140 | "T M" with a space-free nonempty T and a nonempty M parses back to T and M. |
| Support.ReplyToUserHandler | src/commands/support.js:132-166 | Non-admins get no reply. A malformed argument gets the format reply, and an unknown ticket the not-found reply. Otherwise the ticket's user gets the answer and the admin the confirmation, with the error text after a failed send. Only the admin's chat and the ticket's user are ever sent to. |
| Support.TicketsMessageEmpty | src/commands/support.js:173-176 | The "none yet" reply comes exactly when there are no tickets. |
| Support.TicketEntryLines | src/commands/support.js:190-198 | With one-line fields, an entry splits into title, status and message lines, plus a response line exactly when a response is set, each ended by a newline. |
| Support.EntryLinesOneLine | src/commands/support.js:178-196 | With one-line fields and the status tables, no line of an entry contains a newline. |
| Support.EntryIsJoin | src/commands/support.js:192-197 | An entry is its lines joined by newlines. |

## Left out

- I/O: the Telegram API, the timer that runs the sweep, and console logging
  are not modelled. A send is the `delivers` parameter. An awaited send that
  fails inside `try` lands in the handler's `catch`, which tries its
  failure text once (`Watchlist.SendOrFallback`). A returned send
  (`return bot.sendMessage(...)`) or a send inside `catch` ends the handler
  whether or not it goes out (`Watchlist.Attempt`).
- Watchlist.SendBirthdayReminders: `delivers` depends only on the chat and
  the text. Two identical notices to one chat therefore succeed or fail
  together, whereas Telegram can accept one and refuse the other.
- The Jalali conversion of moment-jalaali is a foreign library and is the
  parameter `jalaali`. The date of a ticket is the parameter `showDate`:
  `toLocaleDateString('fa-IR')` is not modelled.
- The ticket store (`getUserById`, `createSupportTicket`,
  `updateSupportTicket`, `getUserTickets`) is not modelled. Its results are
  parameters, and a failure of `updateSupportTicket` counts as an unknown
  ticket.
- The `/support` keyboard (`supportHandler`) only sends a fixed menu. Only
  its six callback categories are modelled (`Support.ButtonCategories`).
- listTicketsHandler as a handler: only its text (`Support.TicketsMessage`)
  is modelled, since getUserTickets is not modelled.
- `getStats` is not modelled: it is a reporting query outside the reminder,
  watch-list, gift and support flows.
- `init.js`: connection retries and DDL are not modelled. Its constraints
  are the `Database` invariant and the choice of keys.
- `bot.js` and `birthdays.js` are the command wiring and the birthday
  input dialogue. They are callers of the core, not part of it.
- Concurrency: handlers and overlapping sweeps are not interleaved.
- Queries.Database.SaveUser: the `VARCHAR(255)` limits on the name columns
  are not modelled. Only `item_name`'s limit is (`MaxItemName`).
- Queries.Database.SetBirthday: dates before 1 AD are not modelled, although
  PostgreSQL accepts them. A year below 1 is treated as an impossible date.
- Queries.QueryFailsOnlyOnLeapDay: which stored birthdays the query
  re-dates depends on the plan PostgreSQL chooses. Only the two extremes
  are modelled: after the joins, and at a sequential scan of `birthdays`.
  A plan probing `birthdays` by index after other joins re-dates a set in
  between. It fails on a set of stores that the lemma's first two clauses
  bracket, but it is not a value of `Plan`.
- Queries.Database.GetWatchlist: `ORDER BY u.username` is modelled as
  code-point order with NULLs last. A database collation may order
  differently. Rows with equal usernames come in any order.
- Queries.Database.AddToWatchlist: the self-follow test compares the ids as
  equal values. The node-postgres driver may return a `BIGINT` as a string,
  in which case JavaScript's `===` never holds. That depends on the driver
  and is not modelled.
- Watchlist.WatchHandler: a store error other than not-found and
  self-follow is modelled only as the unknown-watcher case. A lost
  connection is not modelled.
- Gifts.AddGiftHandler: the same applies. Only the overlong item and the
  unknown user are the store errors modelled.
- Support.SupportDesk.HandleSupportCallback: looking up an inherited
  property name of a JavaScript object (such as `constructor`) as a
  category is not modelled. Every key outside the six is undefined.
