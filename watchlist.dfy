/**
 * The watch-list commands (/watch, /unwatch, /watchlist) and the daily
 * birthday-reminder sweep.
 *
 * The Jalali calendar conversion of moment-jalaali is a foreign library and
 * is a parameter `jalaali` here; a message send is the parameter `delivers`,
 * which says whether the send to that chat succeeds.
 */
module Watchlist {
  import opened Wrappers
  import opened Text
  import opened Gregorian
  import opened Queries

  /** What moment-jalaali reports for a date: `jYear()`, the 0-based `jMonth()` and `jDate()`. */
  datatype JalaliDate = JalaliDate(jYear: int, jMonth: int, jDate: int)

  // ---------------------------------------------------------------------
  // Month names and display

  /** `PERSIAN_MONTHS[k]`: defined for the keys 1 .. 12 only. */
  function MonthName(k: int): (r: Option<string>)
    ensures r.Some? <==> 1 <= k <= 12
    ensures r.Some? ==> |r.value| >= 2 && '\n' !in r.value
  {
    if k == 1 then Some("فروردین")
    else if k == 2 then Some("اردیبهشت")
    else if k == 3 then Some("خرداد")
    else if k == 4 then Some("تیر")
    else if k == 5 then Some("مرداد")
    else if k == 6 then Some("شهریور")
    else if k == 7 then Some("مهر")
    else if k == 8 then Some("آبان")
    else if k == 9 then Some("آذر")
    else if k == 10 then Some("دی")
    else if k == 11 then Some("بهمن")
    else if k == 12 then Some("اسفند")
    else None
  }

  /** The twelve month names are pairwise different, so a shown name determines its month. */
  lemma MonthNamesDistinct(a: int, b: int)
    requires MonthName(a).Some? && MonthName(a) == MonthName(b)
    ensures a == b
  {
  }

  /** `${PERSIAN_MONTHS[jMonth() + 1]}`: the name of the 0-based Jalali month, "undefined" outside the table. */
  function MonthText(j: JalaliDate): (s: string)
    ensures '\n' !in s
    ensures 0 <= j.jMonth < 12 ==> MonthName(j.jMonth + 1) == Some(s)
  {
    InterpolateUndefined(MonthName(j.jMonth + 1))
  }

  /** `first_name || username`, interpolated: the first name unless it is null or empty. */
  function DisplayName(firstName: Option<string>, username: Option<string>): string {
    if Truthy(firstName) then firstName.value else Interpolate(username)
  }

  lemma IntToStringOneLine(i: int)
    ensures '\n' !in IntToString(i)
  {
    var s := NatToString(if i < 0 then -i else i);
    forall k | 0 <= k < |s| ensures s[k] != '\n' {
      assert IsDigit(s[k]);
    }
  }

  // ---------------------------------------------------------------------
  // The handlers of /watch and /unwatch

  /** `username.replace('@', '')`: a string pattern replaces its first occurrence only. */
  function CleanUsername(u: string): (r: string)
    ensures '@' !in u ==> r == u
    ensures '@' in u ==> exists i :: 0 <= i < |u| && u[i] == '@' && '@' !in u[..i] && r == u[..i] + u[i + 1..]
    ensures multiset(r) == if '@' in u then multiset(u) - multiset{'@'} else multiset(u)
  {
    RemoveFirstChar(u, '@');
    RemoveFirstCharCount(u, '@');
    ReplaceFirst(u, "@", "")
  }

  /** A second '@' survives the cleanup: one leading '@' is stripped and nothing else. */
  lemma CleanUsernameStripsOneAt(name: string)
    ensures CleanUsername("@" + name) == name
  {
    var u := "@" + name;
    assert u[0] == '@' && u[..0] == [] && u[1..] == name;
    RemoveFirstChar(u, '@');
  }

  const WatchUsage := "لطفا نام کاربری " + "را وارد کنید. " + "مثال: /watch " + "@username"
  const UnwatchUsage := "لطفا نام کاربری " + "را وارد کنید. " + "مثال: /unwatch " + "@username"
  const NotFoundReply := "کاربر مورد نظر " + "پیدا نشد. لطفا " + "مطمئن شوید که " + "کاربر با ربات " + "تعامل داشته " + "است!"
  const SelfFollowReply := "شما نمی\U{200C}توانید " + "خودتان را به " + "لیست دنبال\U{200C}شوندگان " + "اضافه کنید!"
  const AddFailedReply := "متأسفانه در " + "افزودن کاربر " + "مشکلی پیش آمد. " + "لطفا دوباره " + "تلاش کنید."
  const RemoveFailedReply := "متأسفانه در " + "حذف کاربر مشکلی " + "پیش آمد. لطفا " + "دوباره تلاش " + "کنید."

  /**
   * One send to a chat: `delivers` says whether Telegram accepts it. A send
   * whose failure nobody awaits (`return bot.sendMessage(...)`) or that
   * happens inside a `catch` ends the handler either way.
   */
  function Attempt(chat: UserId, text: string, delivers: (UserId, string) -> bool): (sent: seq<Notice>)
    ensures sent == [] || sent == [Notice(chat, text)]
    ensures sent == [Notice(chat, text)] <==> delivers(chat, text)
  {
    if delivers(chat, text) then [Notice(chat, text)] else []
  }

  /**
   * An awaited send inside `try`: if it fails, the handler's `catch` sends
   * the generic failure text instead (the bot's error message never equals
   * the store's own error messages), and that send ends the handler.
   */
  function SendOrFallback(chat: UserId, text: string, fallback: string, delivers: (UserId, string) -> bool): (sent: seq<Notice>)
    ensures |sent| <= 1
    ensures sent == [Notice(chat, text)] <==> delivers(chat, text)
    ensures !delivers(chat, text) ==> (sent == [Notice(chat, fallback)] <==> delivers(chat, fallback))
    ensures sent == [] <==> !delivers(chat, text) && !delivers(chat, fallback)
  {
    if delivers(chat, text) then [Notice(chat, text)] else Attempt(chat, fallback, delivers)
  }

  function AddedReply(shown: string): string {
    "✅ کاربر " + shown + " به لیست دنبال\U{200C}شوندگان " + "اضافه شد! یادآوری " + "تولد برای این " + "کاربر فعال شد."
  }

  function RemovedReply(shown: string): string {
    "✅ کاربر " + shown + " از لیست دنبال\U{200C}شوندگان " + "حذف شد."
  }

  /**
   * addToWatchlistHandler: a blank argument gets the usage text and the store
   * is not touched; otherwise the cleaned name is followed and the reply is
   * chosen by the store's error: not found, self-follow, or any other failure.
   * When the watcher shares the name with others, the store's lookup
   * decides between the self-follow reply and an edge to another of them.
   * The confirmation echoes the trimmed argument, '@' included; when it
   * cannot be sent the edge stays stored and the generic failure text is
   * tried instead.
   */
  method WatchHandler(db: Database, watcherId: UserId, chatId: UserId, arg: Option<string>,
                      delivers: (UserId, string) -> bool) returns (sent: seq<Notice>)
    requires db.Valid()
    modifies db
    ensures db.Valid()
    ensures TrimmedArg(arg).None? ==> sent == Attempt(chatId, WatchUsage, delivers) && db.State() == old(db.State())
    ensures TrimmedArg(arg).Some? && !HasUsername(old(db.users), CleanUsername(TrimmedArg(arg).value)) ==>
      sent == Attempt(chatId, NotFoundReply, delivers) && db.State() == old(db.State())
    ensures TrimmedArg(arg).Some? && HasUsername(old(db.users), CleanUsername(TrimmedArg(arg).value))
            && watcherId in old(db.users) && old(db.users)[watcherId].username != Some(CleanUsername(TrimmedArg(arg).value)) ==>
      sent == SendOrFallback(chatId, AddedReply(TrimmedArg(arg).value), AddFailedReply, delivers)
      && exists id :: id != watcherId && id in old(db.users) && old(db.users)[id].username == Some(CleanUsername(TrimmedArg(arg).value))
                      && db.watchlist == old(db.watchlist) + {Edge(watcherId, id)}
    ensures TrimmedArg(arg).Some? && HasUsername(old(db.users), CleanUsername(TrimmedArg(arg).value))
            && watcherId !in old(db.users) ==>
      sent == Attempt(chatId, AddFailedReply, delivers) && db.State() == old(db.State())
    ensures TrimmedArg(arg).Some? && watcherId in old(db.users)
            && old(db.users)[watcherId].username == Some(CleanUsername(TrimmedArg(arg).value))
            && (forall u :: u in old(db.users) && old(db.users)[u].username == Some(CleanUsername(TrimmedArg(arg).value)) ==> u == watcherId) ==>
      sent == Attempt(chatId, SelfFollowReply, delivers) && db.State() == old(db.State())
    ensures TrimmedArg(arg).Some? && HasUsername(old(db.users), CleanUsername(TrimmedArg(arg).value))
            && watcherId in old(db.users) ==>
      (sent == Attempt(chatId, SelfFollowReply, delivers) && db.State() == old(db.State()))
      || (sent == SendOrFallback(chatId, AddedReply(TrimmedArg(arg).value), AddFailedReply, delivers)
          && exists id :: id != watcherId && id in old(db.users) && old(db.users)[id].username == Some(CleanUsername(TrimmedArg(arg).value))
                          && db.watchlist == old(db.watchlist) + {Edge(watcherId, id)})
    ensures db.users == old(db.users) && db.birthdays == old(db.birthdays)
    ensures db.reminderLogs == old(db.reminderLogs) && db.giftPreferences == old(db.giftPreferences)
  {
    var username := TrimmedArg(arg);
    if username.None? {
      return Attempt(chatId, WatchUsage, delivers);
    }
    var r := db.AddToWatchlist(watcherId, CleanUsername(username.value));
    match r
    case Pass => sent := SendOrFallback(chatId, AddedReply(username.value), AddFailedReply, delivers);
    case Fail(UserNotFound) => sent := Attempt(chatId, NotFoundReply, delivers);
    case Fail(SelfFollow) => sent := Attempt(chatId, SelfFollowReply, delivers);
    case Fail(_) => sent := Attempt(chatId, AddFailedReply, delivers);
  }

  /**
   * removeFromWatchlistHandler: a blank argument gets the usage text; an
   * unknown name gets the not-found reply; otherwise the one edge to the
   * resolved user is deleted, whether or not it was there, and confirmed;
   * a failed confirmation falls back to the generic failure text.
   */
  method UnwatchHandler(db: Database, watcherId: UserId, chatId: UserId, arg: Option<string>,
                        delivers: (UserId, string) -> bool) returns (sent: seq<Notice>)
    requires db.Valid()
    modifies db
    ensures db.Valid()
    ensures TrimmedArg(arg).None? ==> sent == Attempt(chatId, UnwatchUsage, delivers) && db.State() == old(db.State())
    ensures TrimmedArg(arg).Some? && !HasUsername(old(db.users), CleanUsername(TrimmedArg(arg).value)) ==>
      sent == Attempt(chatId, NotFoundReply, delivers) && db.State() == old(db.State())
    ensures TrimmedArg(arg).Some? && HasUsername(old(db.users), CleanUsername(TrimmedArg(arg).value)) ==>
      sent == SendOrFallback(chatId, RemovedReply(TrimmedArg(arg).value), RemoveFailedReply, delivers)
      && exists id :: id in old(db.users) && old(db.users)[id].username == Some(CleanUsername(TrimmedArg(arg).value))
                      && db.watchlist == old(db.watchlist) - {Edge(watcherId, id)}
    ensures db.users == old(db.users) && db.birthdays == old(db.birthdays)
    ensures db.reminderLogs == old(db.reminderLogs) && db.giftPreferences == old(db.giftPreferences)
  {
    var username := TrimmedArg(arg);
    if username.None? {
      return Attempt(chatId, UnwatchUsage, delivers);
    }
    var r := db.RemoveFromWatchlist(watcherId, CleanUsername(username.value));
    match r
    case Pass => sent := SendOrFallback(chatId, RemovedReply(username.value), RemoveFailedReply, delivers);
    case Fail(UserNotFound) => sent := Attempt(chatId, NotFoundReply, delivers);
    case Fail(_) => sent := Attempt(chatId, RemoveFailedReply, delivers);
  }

  // ---------------------------------------------------------------------
  // /watchlist

  const EmptyListReply := "لیست دنبال\U{200C}شوندگان " + "شما خالی است. " + "برای افزودن " + "کاربر از دستور " + "/watch @username " + "استفاده کنید!"
  const ListHeader := "👥 لیست دنبال\U{200C}شوندگان " + "شما:\n\n"
  const BirthDateLabel := " - تاریخ تولد: "
  const ListFailedReply := "متأسفانه در " + "نمایش لیست دنبال\U{200C}شوندگان" + " مشکلی پیش آمد. " + "لطفا دوباره " + "تلاش کنید."

  /** One listed user: name, then the Jalali day and month, or the "not registered" phrase. */
  function WatchLine(w: WatchRow, jalaali: Date -> JalaliDate): string {
    match w.birthDate
    case Some(d) =>
      var j := jalaali(d);
      "• " + DisplayName(w.firstName, w.username) + " - تاریخ تولد: " + IntToString(j.jDate) + " " + MonthText(j)
    case None =>
      "• " + DisplayName(w.firstName, w.username) + " - تاریخ تولد ثبت نشده"
  }

  /**
   * Every line starts with the bullet, the display name and the birth-date
   * label; the character after the label is ':' exactly when a birth date
   * is known.
   */
  lemma WatchLineShape(w: WatchRow, jalaali: Date -> JalaliDate)
    ensures var head := "• " + DisplayName(w.firstName, w.username) + " - تاریخ تولد";
      var line := WatchLine(w, jalaali);
      |head| < |line| && line[..|head|] == head && (line[|head|] == ':' <==> w.birthDate.Some?)
  {
    var name := DisplayName(w.firstName, w.username);
    match w.birthDate
    case Some(d) =>
      var j := jalaali(d);
      DatedLine(name, IntToString(j.jDate), MonthText(j));
    case None =>
      UndatedLine(name);
  }

  /** A line with a birth date continues the label with ':'. */
  lemma DatedLine(name: string, day: string, month: string)
    ensures var head := "• " + name + " - تاریخ تولد";
      var line := "• " + name + " - تاریخ تولد: " + day + " " + month;
      |head| < |line| && line[..|head|] == head && line[|head|] == ':'
  {
    var head := "• " + name + " - تاریخ تولد";
    var tail := ": " + day + " " + month;
    assert "• " + name + " - تاریخ تولد: " + day + " " + month == head + tail;
    HeadThenTail(head, tail);
  }

  /** A line without a birth date continues the label with a space. */
  lemma UndatedLine(name: string)
    ensures var head := "• " + name + " - تاریخ تولد";
      var line := "• " + name + " - تاریخ تولد ثبت نشده";
      |head| < |line| && line[..|head|] == head && line[|head|] == ' '
  {
    var head := "• " + name + " - تاریخ تولد";
    var tail := " ثبت نشده";
    assert "• " + name + " - تاریخ تولد ثبت نشده" == head + tail;
    HeadThenTail(head, tail);
  }

  function WatchLines(rows: seq<WatchRow>, jalaali: Date -> JalaliDate): (lines: seq<string>)
    ensures |lines| == |rows|
    ensures forall i :: 0 <= i < |rows| ==> lines[i] == WatchLine(rows[i], jalaali)
  {
    seq(|rows|, i requires 0 <= i < |rows| => WatchLine(rows[i], jalaali))
  }

  /** listWatchlistHandler's text: the empty-list reply, or the header and one line per row joined by newlines. */
  function ListMessage(rows: seq<WatchRow>, jalaali: Date -> JalaliDate): string {
    if |rows| == 0 then EmptyListReply
    else ListHeader + Join(WatchLines(rows, jalaali), "\n")
  }

  predicate OneLine(o: Option<string>) {
    o.Some? ==> '\n' !in o.value
  }

  lemma WatchLineOneLine(w: WatchRow, jalaali: Date -> JalaliDate)
    requires OneLine(w.firstName) && OneLine(w.username)
    ensures '\n' !in WatchLine(w, jalaali)
  {
    if w.birthDate.Some? {
      IntToStringOneLine(jalaali(w.birthDate.value).jDate);
    }
  }

  /**
   * When no name contains a newline, the body of the listing splits back
   * into exactly one line per followed user, in the listed order.
   */
  lemma ListMessageLines(rows: seq<WatchRow>, jalaali: Date -> JalaliDate)
    requires |rows| > 0
    requires forall i :: 0 <= i < |rows| ==> OneLine(rows[i].firstName) && OneLine(rows[i].username)
    ensures |ListHeader| < |ListMessage(rows, jalaali)|
    ensures ListMessage(rows, jalaali)[..|ListHeader|] == ListHeader
    ensures Split(ListMessage(rows, jalaali)[|ListHeader|..], '\n') == WatchLines(rows, jalaali)
  {
    var lines := WatchLines(rows, jalaali);
    forall k | 0 <= k < |lines| ensures '\n' !in lines[k] {
      WatchLineOneLine(rows[k], jalaali);
    }
    SplitJoin(lines, '\n');
    var body := Join(lines, "\n");
    var msg := ListMessage(rows, jalaali);
    assert msg == ListHeader + body;
    assert msg[|ListHeader|..] == body;
    WatchLineShape(rows[0], jalaali);
    assert |body| > 0;
  }

  /**
   * listWatchlistHandler: the watcher's rows, ordered by username, shown one
   * per line; an empty list gets its own text, and a listing that cannot be
   * sent falls back to the generic failure text.
   */
  method ListWatchlistHandler(db: Database, watcherId: UserId, chatId: UserId, jalaali: Date -> JalaliDate,
                              delivers: (UserId, string) -> bool) returns (sent: seq<Notice>)
    ensures WatchRows(db.State(), watcherId) == {} ==> sent == Attempt(chatId, EmptyListReply, delivers)
    ensures WatchRows(db.State(), watcherId) != {} ==>
      exists rows :: (forall w :: w in rows <==> w in WatchRows(db.State(), watcherId))
                     && Distinct(rows) && SortedByUsername(rows)
                     && sent == SendOrFallback(chatId, ListMessage(rows, jalaali), ListFailedReply, delivers)
    ensures WatchRows(db.State(), watcherId) != {} ==> Notice(chatId, EmptyListReply) !in sent
  {
    var rows := db.GetWatchlist(watcherId);
    if rows == [] {
      return Attempt(chatId, EmptyListReply, delivers);
    }
    assert rows[0] in WatchRows(db.State(), watcherId);
    ListMessageHeadIsNotEmptyReply(rows, jalaali);
    assert ListFailedReply[0] != EmptyListReply[0];
    sent := SendOrFallback(chatId, ListMessage(rows, jalaali), ListFailedReply, delivers);
  }

  /** The listing of a nonempty list never reads as the empty-list reply. */
  lemma ListMessageHeadIsNotEmptyReply(rows: seq<WatchRow>, jalaali: Date -> JalaliDate)
    requires |rows| > 0
    ensures ListMessage(rows, jalaali) != EmptyListReply
  {
    var body := Join(WatchLines(rows, jalaali), "\n");
    assert ListMessage(rows, jalaali) == ListHeader + body;
    assert (ListHeader + body)[0] == ListHeader[0];
    assert ListHeader[0] == '👥' && EmptyListReply[0] == 'ل';
  }

  // ---------------------------------------------------------------------
  // The reminder text

  /** The /suggest hint of the three-day reminder, ending its second line. */
  function SuggestHint(username: Option<string>): string {
    "/suggest @" + Interpolate(username) + " استفاده کنید"
  }

  /** The message for one reminder row, chosen by its type. */
  function ReminderMessage(r: ReminderRow, jalaali: Date -> JalaliDate): string {
    var name := DisplayName(r.watchedFirstName, r.watchedUsername);
    var j := jalaali(r.birthDate);
    var day := IntToString(j.jDate);
    var month := MonthText(j);
    match r.reminderType
    case TwoWeek => "🎂 یادآوری: دو " + "هفته تا تولد " + name + " (" + day + " " + month + ") باقی مانده است!"
    case OneWeek => "🎂 یادآوری: یک " + "هفته تا تولد " + name + " (" + day + " " + month + ") باقی مانده است!"
    case ThreeDay => "🎂 یادآوری: سه " + "روز تا تولد " + name + " (" + day + " " + month + ") باقی مانده " + "است!\nبرای دیدن " + "لیست هدایای " + "مورد علاقه\U{200C}ی " + "ایشان از دستور " + "/suggest @" + Interpolate(r.watchedUsername) + " استفاده کنید"
  }

  /** The message position that names the time left: "two weeks", "one week", "three days" start with different letters. */
  const KindPosition := |"🎂 یادآوری: "|

  function KindOfMessage(msg: string): Option<ReminderType> {
    if |msg| <= KindPosition then None
    else if msg[KindPosition] == 'د' then Some(TwoWeek)
    else if msg[KindPosition] == 'ی' then Some(OneWeek)
    else if msg[KindPosition] == 'س' then Some(ThreeDay)
    else None
  }

  /** The reminder type can be read back from the message. */
  lemma ReminderMessageNamesKind(r: ReminderRow, jalaali: Date -> JalaliDate)
    ensures KindOfMessage(ReminderMessage(r, jalaali)) == Some(r.reminderType)
  {
    var name := DisplayName(r.watchedFirstName, r.watchedUsername);
    var j := jalaali(r.birthDate);
    var day, month := IntToString(j.jDate), MonthText(j);
    match r.reminderType
    case TwoWeek => TwoWeekKind(name, day, month);
    case OneWeek => OneWeekKind(name, day, month);
    case ThreeDay => ThreeDayKind(name, day, month, Interpolate(r.watchedUsername));
  }

  lemma TwoWeekKind(name: string, day: string, month: string)
    ensures KindOfMessage("🎂 یادآوری: دو " + "هفته تا تولد " + name + " (" + day + " " + month + ") باقی مانده است!") == Some(TwoWeek)
  {
    var k, head := KindPosition, "🎂 یادآوری: دو " + "هفته تا تولد ";
    assert head[k] == 'د';
    KeepIndex(head, [name, " (", day, " ", month, ") باقی مانده است!"], k);
  }

  lemma OneWeekKind(name: string, day: string, month: string)
    ensures KindOfMessage("🎂 یادآوری: یک " + "هفته تا تولد " + name + " (" + day + " " + month + ") باقی مانده است!") == Some(OneWeek)
  {
    var k, head := KindPosition, "🎂 یادآوری: یک " + "هفته تا تولد ";
    assert head[k] == 'ی';
    KeepIndex(head, [name, " (", day, " ", month, ") باقی مانده است!"], k);
  }

  lemma ThreeDayKind(name: string, day: string, month: string, user: string)
    ensures KindOfMessage("🎂 یادآوری: سه " + "روز تا تولد " + name + " (" + day + " " + month + ") باقی مانده " + "است!\nبرای دیدن " + "لیست هدایای " + "مورد علاقه\U{200C}ی " + "ایشان از دستور " + "/suggest @" + user + " استفاده کنید") == Some(ThreeDay)
  {
    var k, head := KindPosition, "🎂 یادآوری: سه " + "روز تا تولد ";
    assert head[k] == 'س';
    KeepIndex(head, [name, " (", day, " ", month, ") باقی مانده " + "است!\nبرای دیدن " + "لیست هدایای " + "مورد علاقه\U{200C}ی " + "ایشان از دستور " + "/suggest @", user, " استفاده کنید"], k);
  }

  predicate EndsWith(s: string, suffix: string) {
    |suffix| <= |s| && s[|s| - |suffix|..] == suffix
  }

  /** Only the three-day reminder ends with the /suggest hint for the watched user. */
  lemma SuggestHintOnlyForThreeDays(r: ReminderRow, jalaali: Date -> JalaliDate)
    ensures EndsWith(ReminderMessage(r, jalaali), SuggestHint(r.watchedUsername)) <==> r.reminderType == ThreeDay
  {
    var msg := ReminderMessage(r, jalaali);
    var hint := SuggestHint(r.watchedUsername);
    var name := DisplayName(r.watchedFirstName, r.watchedUsername);
    var j := jalaali(r.birthDate);
    var day := IntToString(j.jDate);
    var month := MonthText(j);
    assert hint[|hint| - 1] == 'د';
    match r.reminderType
    case TwoWeek =>
      assert msg[|msg| - 1] == '!';
    case OneWeek =>
      assert msg[|msg| - 1] == '!';
    case ThreeDay =>
      var front := "🎂 یادآوری: سه " + "روز تا تولد " + name + " (" + day + " " + month + ") باقی مانده " + "است!\nبرای دیدن " + "لیست هدایای " + "مورد علاقه\U{200C}ی " + "ایشان از دستور ";
      assert ") باقی مانده " + "است!\nبرای دیدن " + "لیست هدایای " + "مورد علاقه\U{200C}ی " + "ایشان از دستور " + "/suggest @" == ") باقی مانده " + "است!\nبرای دیدن " + "لیست هدایای " + "مورد علاقه\U{200C}ی " + "ایشان از دستور " + "/suggest @";
      assert msg == front + hint;
      assert msg[|msg| - |hint|..] == hint;
  }

  // ---------------------------------------------------------------------
  // The sweep

  /** A send: the chat it goes to and its text. */
  datatype Notice = Notice(chat: UserId, text: string)

  /** The send for one row: the message for its type, to the watcher's chat. */
  function NoticeOf(r: ReminderRow, jalaali: Date -> JalaliDate): Notice {
    Notice(r.watcherUserId, ReminderMessage(r, jalaali))
  }

  /** NoticeOf as a function of the row, for a fixed calendar conversion. */
  function ReminderNotice(jalaali: Date -> JalaliDate): ReminderRow -> Notice {
    r => NoticeOf(r, jalaali)
  }

  /** The sends for a list of rows, in order. */
  function Notices(rows: seq<ReminderRow>, notice: ReminderRow -> Notice): (ns: seq<Notice>)
    ensures |ns| == |rows|
    ensures forall i :: 0 <= i < |rows| ==> ns[i] == notice(rows[i])
  {
    seq(|rows|, i requires 0 <= i < |rows| => notice(rows[i]))
  }

  predicate Delivered(n: Notice, delivers: (UserId, string) -> bool) {
    delivers(n.chat, n.text)
  }

  /** The number of leading rows whose send succeeds: the sweep stops at the first failing send. */
  function DeliveredPrefix(rows: seq<ReminderRow>, notice: ReminderRow -> Notice, delivers: (UserId, string) -> bool): (n: nat)
    ensures n <= |rows|
    ensures forall i :: 0 <= i < n ==> Delivered(notice(rows[i]), delivers)
    ensures n < |rows| ==> !Delivered(notice(rows[n]), delivers)
    decreases |rows|
  {
    if |rows| == 0 then 0
    else if Delivered(notice(rows[0]), delivers) then 1 + DeliveredPrefix(rows[1..], notice, delivers)
    else 0
  }

  function Elements<T>(xs: seq<T>): set<T> {
    set x | x in xs
  }

  /** A list without repetition has as many elements as its set. */
  lemma {:induction false} DistinctCard<T>(xs: seq<T>)
    requires Distinct(xs)
    ensures |Elements(xs)| == |xs|
  {
    if |xs| > 0 {
      var tail := xs[1..];
      assert Distinct(tail) by {
        forall i, j | 0 <= i < j < |tail| ensures tail[i] != tail[j] {
          assert tail[i] == xs[i + 1] && tail[j] == xs[j + 1];
        }
      }
      DistinctCard(tail);
      assert Elements(xs) == Elements(tail) + {xs[0]};
      assert xs[0] !in Elements(tail) by {
        forall i | 0 <= i < |tail| ensures tail[i] != xs[0] {
          assert tail[i] == xs[i + 1];
        }
      }
    }
  }

  /**
   * sendBirthdayReminders: query the candidates, and for each in turn send
   * its message, then record it in the ledger with its `current_year`. A
   * failing query or send ends the sweep silently: exactly the rows before
   * the first failed send are logged, and every other candidate is still
   * returned by a same-day query.
   */
  method SendBirthdayReminders(db: Database, today: Date, jalaali: Date -> JalaliDate, delivers: (UserId, string) -> bool)
    returns (rows: seq<ReminderRow>, sent: seq<Notice>)
    requires db.Valid() && IsValid(today)
    modifies db
    ensures db.Valid()
    ensures ReminderRows(old(db.State()), today).Failure? ==> rows == [] && sent == [] && db.State() == old(db.State())
    ensures ReminderRows(old(db.State()), today).Success? ==>
      (forall r :: r in rows <==> r in ReminderRows(old(db.State()), today).value) && Distinct(rows)
    ensures sent == Notices(rows[..DeliveredPrefix(rows, ReminderNotice(jalaali), delivers)], ReminderNotice(jalaali))
    ensures db.reminderLogs == old(db.reminderLogs) + LogsOf(Elements(rows[..DeliveredPrefix(rows, ReminderNotice(jalaali), delivers)]))
    ensures ReminderRows(old(db.State()), today).Success? ==>
      ReminderRows(db.State(), today) == Success(Elements(rows) - Elements(rows[..DeliveredPrefix(rows, ReminderNotice(jalaali), delivers)]))
    ensures DeliveredPrefix(rows, ReminderNotice(jalaali), delivers) < |rows| ==>
      rows[DeliveredPrefix(rows, ReminderNotice(jalaali), delivers)] in ReminderRows(db.State(), today).value
    ensures ReminderRows(old(db.State()), today).Success? && DeliveredPrefix(rows, ReminderNotice(jalaali), delivers) == |rows| ==>
      ReminderRows(db.State(), today) == Success({})
    ensures db.users == old(db.users) && db.birthdays == old(db.birthdays)
    ensures db.watchlist == old(db.watchlist) && db.giftPreferences == old(db.giftPreferences)
  {
    var query := db.GetBirthdayReminders(today);
    if query.Failure? {
      return [], [];
    }
    rows := query.value;
    ghost var t0 := db.State();
    RowsLogFreshly(t0, today, rows);
    var count;
    sent, count := DeliverAndLog(db, rows, ReminderNotice(jalaali), delivers);
    SweepOutcome(t0, today, rows, count);
  }

  /**
   * The loop of the sweep over an enumeration of the candidates: each
   * reminder is sent and then logged, and the first failing send ends the
   * loop; nothing but the ledger changes.
   */
  method DeliverAndLog(db: Database, rows: seq<ReminderRow>, notice: ReminderRow -> Notice, delivers: (UserId, string) -> bool)
    returns (sent: seq<Notice>, count: nat)
    requires db.Valid() && LogsFresh(db.State(), rows)
    modifies db
    ensures db.Valid()
    ensures count == DeliveredPrefix(rows, notice, delivers)
    ensures sent == Notices(rows[..count], notice)
    ensures db.State() == old(db.State()).(reminderLogs := old(db.reminderLogs) + LogsOf(Elements(rows[..count])))
  {
    ghost var t0 := db.State();
    sent := [];
    var i := 0;
    while i < |rows|
      invariant 0 <= i <= |rows|
      invariant forall k :: 0 <= k < i ==> Delivered(notice(rows[k]), delivers)
      invariant sent == Notices(rows[..i], notice)
      invariant db.Valid()
      invariant db.State() == t0.(reminderLogs := t0.reminderLogs + LogsOf(Elements(rows[..i])))
    {
      var r := rows[i];
      var n := notice(r);
      if !delivers(n.chat, n.text) {
        PrefixAt(rows, notice, delivers, i);
        return sent, i;
      }
      sent := sent + [n];
      assert FreshAt(t0, rows, i);
      LogSent(db, r);
      LedgerStep(t0.reminderLogs, rows, i);
      NoticesStep(rows, i, notice);
      i := i + 1;
    }
    PrefixAt(rows, notice, delivers, i);
    count := i;
  }

  /** `logReminder` for a row whose entry is new and whose users exist: the insert succeeds. */
  method LogSent(db: Database, r: ReminderRow)
    requires db.Valid() && LogOf(r) !in db.reminderLogs && r.watcherId in db.users && r.watchedId in db.users
    modifies db
    ensures db.Valid()
    ensures db.State() == old(db.State()).(reminderLogs := old(db.reminderLogs) + {LogOf(r)})
  {
    var logged := db.LogReminder(r.watcherId, r.watchedId, r.reminderType, r.currentYear);
    assert logged.Pass?;
  }

  /** The delivered prefix is the position of the first failing send, or the whole list. */
  lemma PrefixAt(rows: seq<ReminderRow>, notice: ReminderRow -> Notice, delivers: (UserId, string) -> bool, i: int)
    requires 0 <= i <= |rows|
    requires forall k :: 0 <= k < i ==> Delivered(notice(rows[k]), delivers)
    requires i < |rows| ==> !Delivered(notice(rows[i]), delivers)
    ensures DeliveredPrefix(rows, notice, delivers) == i
  {
  }

  lemma NoticesStep(rows: seq<ReminderRow>, i: int, notice: ReminderRow -> Notice)
    requires 0 <= i < |rows|
    ensures Notices(rows[..i + 1], notice) == Notices(rows[..i], notice) + [notice(rows[i])]
  {
    var a := Notices(rows[..i + 1], notice);
    var b := Notices(rows[..i], notice) + [notice(rows[i])];
    assert |a| == |b|;
    forall k | 0 <= k < |a| ensures a[k] == b[k] {
      assert rows[..i + 1][k] == rows[k];
      if k < i {
        assert rows[..i][k] == rows[k];
      }
    }
  }

  /** Logging row i after the rows before it leaves the ledger holding the logs of the first i + 1 rows. */
  lemma LedgerStep(logs: set<LogEntry>, rows: seq<ReminderRow>, i: int)
    requires 0 <= i < |rows|
    ensures logs + LogsOf(Elements(rows[..i])) + {LogOf(rows[i])} == logs + LogsOf(Elements(rows[..i + 1]))
  {
    ElementsStep(rows, i);
    var e := Elements(rows[..i]);
    assert LogsOf(e + {rows[i]}) == LogsOf(e) + {LogOf(rows[i])};
  }

  lemma ElementsStep<T>(xs: seq<T>, i: int)
    requires 0 <= i < |xs|
    ensures Elements(xs[..i + 1]) == Elements(xs[..i]) + {xs[i]}
  {
    assert xs[..i + 1] == xs[..i] + [xs[i]];
  }

  /**
   * After logging the rows before position n, a same-day query returns the
   * rest: row n first among them when there is one, and nothing when n is
   * the whole list.
   */
  lemma SweepOutcome(t: Tables, today: Date, rows: seq<ReminderRow>, n: int)
    requires IsValid(today) && ReminderRows(t, today).Success?
    requires Elements(rows) == ReminderRows(t, today).value && Distinct(rows)
    requires 0 <= n <= |rows|
    ensures var t' := t.(reminderLogs := t.reminderLogs + LogsOf(Elements(rows[..n])));
      && ReminderRows(t', today) == Success(Elements(rows) - Elements(rows[..n]))
      && (n < |rows| ==> rows[n] in ReminderRows(t', today).value)
      && (n == |rows| ==> ReminderRows(t', today) == Success({}))
  {
    LoggingRemovesExactly(t, today, Elements(rows[..n]));
    if n == |rows| {
      assert rows[..n] == rows;
      assert Elements(rows) - Elements(rows) == {};
    } else {
      assert rows[n] !in Elements(rows[..n]);
    }
  }

  /** Each row's log entry is new to the ledger once the rows before it are logged, and both its users exist. */
  ghost predicate LogsFresh(t: Tables, rows: seq<ReminderRow>) {
    forall i :: 0 <= i < |rows| ==> FreshAt(t, rows, i)
  }

  ghost predicate FreshAt(t: Tables, rows: seq<ReminderRow>, i: int)
    requires 0 <= i < |rows|
  {
    LogOf(rows[i]) !in t.reminderLogs + LogsOf(Elements(rows[..i])) && rows[i].watcherId in t.users && rows[i].watchedId in t.users
  }

  /** An enumeration of the query's rows can be logged in order without ever hitting the ledger's unique key. */
  lemma RowsLogFreshly(t: Tables, today: Date, rows: seq<ReminderRow>)
    requires IsValid(today) && ReminderRows(t, today).Success?
    requires Elements(rows) == ReminderRows(t, today).value && Distinct(rows)
    ensures LogsFresh(t, rows)
  {
    forall i | 0 <= i < |rows|
      ensures FreshAt(t, rows, i)
    {
      NextLogIsNew(t, today, rows, i);
    }
  }

  lemma NextLogIsNew(t: Tables, today: Date, rows: seq<ReminderRow>, i: int)
    requires IsValid(today) && ReminderRows(t, today).Success?
    requires Elements(rows) == ReminderRows(t, today).value && Distinct(rows)
    requires 0 <= i < |rows|
    ensures LogOf(rows[i]) !in t.reminderLogs + LogsOf(Elements(rows[..i]))
    ensures rows[i].watcherId in t.users && rows[i].watchedId in t.users
  {
    CandidateMeaning(t, today, rows[i]);
    if LogOf(rows[i]) in LogsOf(Elements(rows[..i])) {
      var r2 :| r2 in Elements(rows[..i]) && LogOf(r2) == LogOf(rows[i]);
      var k :| 0 <= k < i && rows[k] == r2;
      RowsKeyedByEdge(t, today, rows[k], rows[i]);
    }
  }

  /**
   * Two sweeps on the same day when every send succeeds: the first sends
   * one message per candidate, and the second sends nothing.
   */
  method SweepTwice(db: Database, today: Date, jalaali: Date -> JalaliDate, delivers: (UserId, string) -> bool)
    returns (first: seq<Notice>, second: seq<Notice>)
    requires db.Valid() && IsValid(today)
    requires forall chat, text :: delivers(chat, text)
    modifies db
    ensures ReminderRows(old(db.State()), today).Success? ==> |first| == |ReminderRows(old(db.State()), today).value|
    ensures forall r :: ReminderRows(old(db.State()), today).Success? && r in ReminderRows(old(db.State()), today).value ==>
      NoticeOf(r, jalaali) in first
    ensures second == []
  {
    ghost var t0 := db.State();
    var rows1;
    rows1, first := SendBirthdayReminders(db, today, jalaali, delivers);
    assert DeliveredPrefix(rows1, ReminderNotice(jalaali), delivers) == |rows1|;
    assert rows1[..|rows1|] == rows1;
    if ReminderRows(t0, today).Success? {
      assert Elements(rows1) == ReminderRows(t0, today).value;
      DistinctCard(rows1);
      forall r | r in ReminderRows(t0, today).value ensures NoticeOf(r, jalaali) in first {
        var k :| 0 <= k < |rows1| && rows1[k] == r;
        assert first[k] == NoticeOf(r, jalaali);
      }
    }
    ghost var t1 := db.State();
    assert ReminderRows(t1, today).Success? ==> ReminderRows(t1, today).value == {};
    var rows2;
    rows2, second := SendBirthdayReminders(db, today, jalaali, delivers);
    if ReminderRows(t1, today).Success? {
      assert Elements(rows2) == ReminderRows(t1, today).value;
      DistinctCard(rows2);
    }
    assert second == Notices(rows2[..0], ReminderNotice(jalaali));
  }
}
