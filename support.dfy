/**
 * The support desk: a per-user conversation state set by a category button
 * and cleared once the user's message has reached the admin, the admin's
 * /reply command, and the user's ticket list.
 *
 * The ticket store (getUserById, createSupportTicket, updateSupportTicket,
 * getUserTickets) is outside this model; its answers are parameters.
 */
module Support {
  import opened Wrappers
  import opened Text
  import opened Queries
  import opened Watchlist

  // ---------------------------------------------------------------------
  // Categories

  /** The one state a user can be in besides having no entry: waiting for their message. */
  datatype UserState = WaitingForMessage(category: string)

  /** `data.replace('support_', '')`: the button's data without its first "support_". */
  function CategoryOf(data: string): string {
    ReplaceFirst(data, "support_", "")
  }

  /** A button's data "support_" + c names the category c. */
  lemma CategoryOfButton(c: string)
    ensures CategoryOf("support_" + c) == c
  {
    var s := "support_" + c;
    assert OccursAt(s, "support_", 0) by {
      assert s[0..|"support_"|] == "support_";
    }
    assert Find(s, "support_") == Some(0);
    assert s[|"support_"|..] == c;
  }

  /** `categoryTitles`: the Persian title of each of the six categories. */
  const CategoryTitles: map<string, string> := map[
    "bot" := "ربات", "gifts" := "هدایا", "birthday" := "تاریخ تولد",
    "watchlist" := "لیست دنبال\U{200C}شوندگان", "technical" := "مشکلات فنی", "other" := "سایر موارد"]

  /** `categoryTitles[category]`: the title, or None (JavaScript's undefined) for any other category. */
  function CategoryTitle(c: string): Option<string> {
    Lookup(CategoryTitles, c)
  }

  /** The categories behind the six buttons of /support, whose callback data is "support_" followed by the category. */
  const ButtonCategories := ["bot", "gifts", "birthday", "watchlist", "technical", "other"]

  /**
   * Callback data "support_" + c leads to a titled category exactly when c
   * is one of the six buttons' categories; the back button's "support_back"
   * leads to the untitled category "back".
   */
  lemma CallbackTitle(c: string)
    ensures CategoryTitle(CategoryOf("support_" + c)).Some? <==> c in ButtonCategories
  {
    CategoryOfButton(c);
  }

  const SupportError := "متأسفانه مشکلی " + "پیش آمد. لطفا " + "دوباره تلاش " + "کنید."
  const SendError := "متأسفانه در " + "ارسال پیام مشکلی " + "پیش آمد. لطفا " + "دوباره تلاش " + "کنید."

  /** The edited prompt after a category is chosen. */
  function Prompt(category: string): string {
    "لطفا پیام خود درباره " + InterpolateUndefined(CategoryTitle(category)) + " را بنویسید:"
  }

  // ---------------------------------------------------------------------
  // The user's message

  /** The fields of a `users` row that getUserById supplies here. */
  datatype Profile = Profile(username: Option<string>, firstName: Option<string>)

  const DefaultName := "کاربر"

  /** `@username` when the username is set, else the first name (or the default word) and the id in parentheses. */
  function UserInfo(p: Profile, userId: UserId): string {
    if Truthy(p.username) then "@" + p.username.value
    else (if Truthy(p.firstName) then p.firstName.value else DefaultName) + " (" + IntToString(userId) + ")"
  }

  /**
   * The user is named by '@' and the username when it is set; otherwise
   * the text ends with the id in parentheses after a nonempty name.
   */
  lemma UserInfoShape(p: Profile, userId: UserId)
    ensures Truthy(p.username) ==> UserInfo(p, userId) == "@" + p.username.value && |UserInfo(p, userId)| >= 2
    ensures !Truthy(p.username) ==>
      var tail := " (" + IntToString(userId) + ")";
      EndsWith(UserInfo(p, userId), tail) && |UserInfo(p, userId)| > |tail|
  {
    if !Truthy(p.username) {
      var name := if Truthy(p.firstName) then p.firstName.value else DefaultName;
      Suffixed(name, " (", IntToString(userId), ")");
    }
  }

  /** A nonempty text followed by three pieces ends with those pieces and is longer than them. */
  lemma Suffixed(name: string, a: string, b: string, c: string)
    requires name != ""
    ensures EndsWith(name + a + b + c, a + b + c) && |name + a + b + c| > |a + b + c|
  {
    assert name + a + b + c == name + (a + b + c);
    assert (name + (a + b + c))[|name|..] == a + b + c;
  }

  /** The message to the admin: ticket number, user, category title and the text, then how to answer. */
  function AdminMessage(ticket: string, info: string, category: string, text: Option<string>): string {
    "\n📨 پیام پشتیبانی " + "جدید\nشماره تیکت: " + ticket + "\nکاربر: " + info + "\nموضوع: " + InterpolateUndefined(CategoryTitle(category))
    + "\n\nپیام:\n" + InterpolateUndefined(text) + "\n\nبرای پاسخ " + "از دستور زیر " + "استفاده کنید:\n" + "/reply " + ticket + " پاسخ شما"
  }

  /** The confirmation to the user, with the tracking number. */
  function Confirmation(ticket: string): string {
    "✅ پیام شما با " + "موفقیت ارسال " + "شد.\nشماره پیگیری: " + ticket + "\nدر اسرع وقت " + "بررسی خواهد " + "شد.\n\nبرای مشاهده " + "وضعیت پیام\U{200C}های " + "خود از دستور " + "/tickets استفاده " + "کنید."
  }

  /** The two texts of a forwarded message: the one for the admin and the confirmation for the user. */
  datatype Outgoing = Outgoing(toAdmin: string, confirmation: string)

  /** The texts handleUserMessage sends, or None when the user lookup or the ticket creation fails. */
  function OutgoingFor(userId: UserId, category: string, text: Option<string>, profile: Option<Profile>, ticket: Option<string>): (o: Option<Outgoing>)
    ensures o.Some? <==> profile.Some? && ticket.Some?
  {
    if profile.None? || ticket.None? then None
    else Some(Outgoing(AdminMessage(ticket.value, UserInfo(profile.value, userId), category, text), Confirmation(ticket.value)))
  }

  /** What handleUserMessage sends for a waiting user, and whether it then forgets the user's state. */
  datatype Delivery = Delivery(sent: seq<Notice>, done: bool)

  /**
   * The forwarding of a waiting user's message: the texts must exist, then
   * the admin must get the first and the user's chat the confirmation. The
   * first failure sends the error text to the chat instead.
   */
  function Forward(chatId: UserId, admin: UserId, out: Option<Outgoing>, delivers: (UserId, string) -> bool): Delivery {
    if out.None? then Delivery(Attempt(chatId, SendError, delivers), false)
    else if !delivers(admin, out.value.toAdmin) then Delivery(Attempt(chatId, SendError, delivers), false)
    else if !delivers(chatId, out.value.confirmation) then Delivery([Notice(admin, out.value.toAdmin)] + Attempt(chatId, SendError, delivers), false)
    else Delivery([Notice(admin, out.value.toAdmin), Notice(chatId, out.value.confirmation)], true)
  }

  /**
   * The user's state is forgotten exactly when the texts exist and both the
   * admin's message and the user's confirmation are delivered; those two
   * are then all that is sent.
   */
  lemma ForwardDoneIffDelivered(chatId: UserId, admin: UserId, out: Option<Outgoing>, delivers: (UserId, string) -> bool)
    ensures var d := Forward(chatId, admin, out, delivers);
      (d.done <==> out.Some? && delivers(admin, out.value.toAdmin) && delivers(chatId, out.value.confirmation))
      && (d.done ==> d.sent == [Notice(admin, out.value.toAdmin), Notice(chatId, out.value.confirmation)])
  {
  }

  /**
   * When forwarding fails, at most two messages go out, each either the
   * error text to the user's chat or the user's message to the admin.
   */
  lemma ForwardFailureSends(chatId: UserId, admin: UserId, out: Option<Outgoing>, delivers: (UserId, string) -> bool)
    ensures var d := Forward(chatId, admin, out, delivers);
      !d.done ==> |d.sent| <= 2 && forall n :: n in d.sent ==>
        (n == Notice(chatId, SendError) || (out.Some? && n == Notice(admin, out.value.toAdmin)))
  {
    var d := Forward(chatId, admin, out, delivers);
    var err := Attempt(chatId, SendError, delivers);
    assert forall n :: n in err ==> n == Notice(chatId, SendError);
    if out.Some? && delivers(admin, out.value.toAdmin) && !delivers(chatId, out.value.confirmation) {
      assert d.sent == [Notice(admin, out.value.toAdmin)] + err;
    }
  }

  class SupportDesk {
    /** `userStates`: the users the desk is waiting for, with their chosen category. */
    var userStates: map<UserId, UserState>

    constructor ()
      ensures userStates == map[]
    {
      userStates := map[];
    }

    /**
     * handleSupportCallback: the user now waits with the chosen category
     * (replacing any earlier one); the keyboard message is edited into the
     * prompt (`edited` says whether Telegram accepts the edit), or, if that
     * edit fails, the error text is sent to the chat from its `catch`.
     */
    method HandleSupportCallback(userId: UserId, chatId: UserId, data: string, edited: bool,
                                 delivers: (UserId, string) -> bool) returns (shown: Option<string>, sent: seq<Notice>)
      modifies this
      ensures userStates == old(userStates)[userId := WaitingForMessage(CategoryOf(data))]
      ensures edited ==> shown == Some(Prompt(CategoryOf(data))) && sent == []
      ensures !edited ==> shown == None && sent == Attempt(chatId, SupportError, delivers)
    {
      var category := CategoryOf(data);
      userStates := userStates[userId := WaitingForMessage(category)];
      if edited {
        shown, sent := Some(Prompt(category)), [];
      } else {
        shown, sent := None, Attempt(chatId, SupportError, delivers);
      }
    }

    /**
     * handleUserMessage: ignored unless the user is waiting. Otherwise the
     * user is looked up (`profile`), a ticket is created (`ticket`, None when
     * that fails), the admin is sent the message and the user the
     * confirmation; only when all of these succeed is the user's state
     * deleted. Any failure sends the error text instead and keeps the state.
     */
    method HandleUserMessage(userId: UserId, chatId: UserId, text: Option<string>, admin: UserId,
                             profile: Option<Profile>, ticket: Option<string>, delivers: (UserId, string) -> bool)
      returns (sent: seq<Notice>)
      modifies this
      ensures userId !in old(userStates) ==> sent == [] && userStates == old(userStates)
      ensures userId in old(userStates) ==>
        var d := Forward(chatId, admin, OutgoingFor(userId, old(userStates)[userId].category, text, profile, ticket), delivers);
        sent == d.sent && userStates == if d.done then old(userStates) - {userId} else old(userStates)
    {
      sent := [];
      if userId in userStates {
        var state := userStates[userId];
        var out := OutgoingFor(userId, state.category, text, profile, ticket);
        if out.None? || !delivers(admin, out.value.toAdmin) {
          sent := Attempt(chatId, SendError, delivers);
        } else {
          sent := [Notice(admin, out.value.toAdmin)];
          if !delivers(chatId, out.value.confirmation) {
            sent := sent + Attempt(chatId, SendError, delivers);
          } else {
            sent := sent + [Notice(chatId, out.value.confirmation)];
            userStates := userStates - {userId};
          }
        }
      }
    }
  }

  /**
   * From choosing a category to a delivered message: the user's state is
   * gone afterwards, and the admin got the message under that category.
   */
  method SupportConversation(desk: SupportDesk, userId: UserId, data: string, text: string, admin: UserId,
                             profile: Profile, ticket: string, delivers: (UserId, string) -> bool)
    returns (sent: seq<Notice>)
    requires forall chat, t :: delivers(chat, t)
    modifies desk
    ensures userId !in desk.userStates
    ensures forall u :: u != userId ==> (u in desk.userStates <==> u in old(desk.userStates))
    ensures sent == [Notice(admin, AdminMessage(ticket, UserInfo(profile, userId), CategoryOf(data), Some(text))),
                     Notice(userId, Confirmation(ticket))]
  {
    var shown, none := desk.HandleSupportCallback(userId, userId, data, true, delivers);
    ghost var waiting := desk.userStates;
    var out := OutgoingFor(userId, CategoryOf(data), Some(text), Some(profile), Some(ticket));
    ghost var toAdmin, confirmation := out.value.toAdmin, out.value.confirmation;
    assert toAdmin == AdminMessage(ticket, UserInfo(profile, userId), CategoryOf(data), Some(text));
    assert confirmation == Confirmation(ticket);
    ForwardDoneIffDelivered(userId, admin, out, delivers);
    ghost var d := Forward(userId, admin, out, delivers);
    assert d.done && d.sent == [Notice(admin, toAdmin), Notice(userId, confirmation)];
    sent := desk.HandleUserMessage(userId, userId, Some(text), admin, Some(profile), Some(ticket), delivers);
    assert desk.userStates == waiting - {userId};
  }

  // ---------------------------------------------------------------------
  // /reply TICKET message

  /**
   * `const [ticketNumber, ...rest] = arg.split(' '); const message = rest.join(' ')`
   * and the `!ticketNumber || !message` test: the ticket is the text before
   * the first space and the message exactly the text after it.
   */
  function ParseReply(s: string): (r: Option<(string, string)>)
    ensures var i := IndexOf(s, ' ');
      r.Some? <==> 0 < i && i + 1 < |s|
    ensures r.Some? ==> var i := IndexOf(s, ' ');
      r.value.0 == s[..i] && r.value.1 == s[i + 1..] && ' ' !in r.value.0
  {
    var parts := Split(s, ' ');
    SplitHead(s, ' ');
    var i := IndexOf(s, ' ');
    var ticket := parts[0];
    var message := Join(parts[1..], " ");
    if i < |s| then
      JoinSplit(s[i + 1..], ' ');
      if ticket == "" || message == "" then None else Some((ticket, message))
    else
      assert message == "";
      None
  }

  /** Writing "/reply T M" for a ticket T without spaces and a nonempty M gives back T and M. */
  lemma ParseReplyRoundTrip(t: string, m: string)
    requires t != "" && ' ' !in t && m != ""
    ensures ParseReply(t + " " + m) == Some((t, m))
  {
    var s := t + " " + m;
    assert s == t + (" " + m);
    IndexOfPrefix(t, " " + m, ' ');
    IndexOfUnique(" " + m, ' ', 0);
    assert s[..|t|] == t;
    assert s[|t| + 1..] == m;
  }

  const FormatError := "فرمت نادرست. " + "مثال:\n/reply " + "TKT-XXXXX پیام " + "پاسخ"
  const TicketNotFound := "تیکت مورد نظر یافت نشد."
  const ReplyError := "متأسفانه در " + "ارسال پاسخ مشکلی " + "پیش آمد. لطفا " + "دوباره تلاش " + "کنید."

  function Answer(ticket: string, message: string): string {
    "📬 پاسخ به تیکت " + ticket + ":\n\n" + message
  }

  function AnswerConfirmation(ticket: string): string {
    "✅ پاسخ شما برای تیکت " + ticket + " با موفقیت ارسال شد."
  }

  /**
   * replyToUserHandler: anyone but the admin is ignored without a reply; a
   * missing argument fails with the error text; a malformed one gets the
   * format reply; an unknown ticket the not-found reply, with nothing sent
   * to any user; otherwise the ticket's user gets the answer and the admin
   * a confirmation. `ticketUser` is updateSupportTicket's answer: the
   * ticket's user, or None when no ticket has that number.
   */
  method ReplyToUserHandler(sender: UserId, admin: UserId, chatId: UserId, arg: Option<string>,
                            ticketUser: string -> Option<UserId>, delivers: (UserId, string) -> bool)
    returns (sent: seq<Notice>)
    ensures sender != admin ==> sent == []
    ensures sender == admin && arg.None? ==> sent == Attempt(chatId, ReplyError, delivers)
    ensures sender == admin && arg.Some? && ParseReply(arg.value).None? ==> sent == Attempt(chatId, FormatError, delivers)
    ensures sender == admin && arg.Some? && ParseReply(arg.value).Some? && ticketUser(ParseReply(arg.value).value.0).None? ==>
      sent == Attempt(chatId, TicketNotFound, delivers)
    ensures sender == admin && arg.Some? && ParseReply(arg.value).Some? && ticketUser(ParseReply(arg.value).value.0).Some? ==>
      var (t, m) := ParseReply(arg.value).value;
      var user := ticketUser(t).value;
      if !delivers(user, Answer(t, m)) then sent == Attempt(chatId, ReplyError, delivers)
      else if !delivers(chatId, AnswerConfirmation(t)) then sent == [Notice(user, Answer(t, m))] + Attempt(chatId, ReplyError, delivers)
      else sent == [Notice(user, Answer(t, m)), Notice(chatId, AnswerConfirmation(t))]
    ensures forall n :: n in sent ==> n.chat == chatId || (arg.Some? && ParseReply(arg.value).Some? && ticketUser(ParseReply(arg.value).value.0) == Some(n.chat))
  {
    if sender != admin {
      return [];
    }
    if arg.None? {
      return Attempt(chatId, ReplyError, delivers);
    }
    var parsed := ParseReply(arg.value);
    if parsed.None? {
      return Attempt(chatId, FormatError, delivers);
    }
    var (t, m) := parsed.value;
    var user := ticketUser(t);
    if user.None? {
      return Attempt(chatId, TicketNotFound, delivers);
    }
    var answer := Answer(t, m);
    if !delivers(user.value, answer) {
      return Attempt(chatId, ReplyError, delivers);
    }
    sent := [Notice(user.value, answer)];
    var confirmation := AnswerConfirmation(t);
    if !delivers(chatId, confirmation) {
      return sent + Attempt(chatId, ReplyError, delivers);
    }
    sent := sent + [Notice(chatId, confirmation)];
  }

  // ---------------------------------------------------------------------
  // /tickets

  /** A row of getUserTickets, with `created_at` kept abstract. */
  datatype TicketRow = TicketRow(ticketNumber: string, status: string, message: Option<string>, adminResponse: Option<string>, createdAt: int)

  /** `statusEmoji` and `statusText`: the emoji and the Persian word for each ticket status. */
  const StatusEmojis: map<string, string> := map["pending" := "⏳", "answered" := "✅", "closed" := "🔒"]
  const StatusTexts: map<string, string> := map["pending" := "در انتظار پاسخ", "answered" := "پاسخ داده شده", "closed" := "بسته شده"]

  /** A lookup in one of those tables: None (undefined) for any other status. */
  function Lookup(m: map<string, string>, k: string): Option<string> {
    if k in m then Some(m[k]) else None
  }

  const NoTicketsReply := "شما هنوز هیچ " + "پیامی به پشتیبانی " + "ارسال نکرده\U{200C}اید."
  const TicketsHeader := "📋 لیست پیام\U{200C}های شما:\n\n"
  const TicketSeparator := "\n───────────────\n"

  /** The first line of an entry: status emoji, ticket number and the localised creation date. */
  function TicketTitle(t: TicketRow, showDate: int -> string): string {
    InterpolateUndefined(Lookup(StatusEmojis, t.status)) + " تیکت " + t.ticketNumber + " - " + showDate(t.createdAt)
  }

  function StatusLine(t: TicketRow): string {
    "وضعیت: " + InterpolateUndefined(Lookup(StatusTexts, t.status))
  }

  function MessageLine(t: TicketRow): string {
    "پیام: " + Interpolate(t.message)
  }

  function ResponseLine(t: TicketRow): string
    requires t.adminResponse.Some?
  {
    "پاسخ: " + t.adminResponse.value
  }

  /** One entry: title, status and message lines, and a response line only when a response is set, each ended by a newline. */
  function TicketEntry(t: TicketRow, showDate: int -> string): string {
    TicketTitle(t, showDate) + "\n" + StatusLine(t) + "\n" + MessageLine(t) + "\n"
    + (if Truthy(t.adminResponse) then ResponseLine(t) + "\n" else "")
  }

  function TicketEntries(ts: seq<TicketRow>, showDate: int -> string): (es: seq<string>)
    ensures |es| == |ts|
    ensures forall i :: 0 <= i < |ts| ==> es[i] == TicketEntry(ts[i], showDate)
  {
    seq(|ts|, i requires 0 <= i < |ts| => TicketEntry(ts[i], showDate))
  }

  /** listTicketsHandler's text: the "none yet" reply, or the header and the entries joined by the separator line. */
  function TicketsMessage(ts: seq<TicketRow>, showDate: int -> string): string {
    if |ts| == 0 then NoTicketsReply
    else TicketsHeader + Join(TicketEntries(ts, showDate), TicketSeparator)
  }

  /** The "none yet" reply is given exactly when there are no tickets. */
  lemma TicketsMessageEmpty(ts: seq<TicketRow>, showDate: int -> string)
    ensures TicketsMessage(ts, showDate) == NoTicketsReply <==> |ts| == 0
  {
    if |ts| > 0 {
      var body := Join(TicketEntries(ts, showDate), TicketSeparator);
      assert (TicketsHeader + body)[0] == TicketsHeader[0];
      assert TicketsHeader[0] == '📋' && NoTicketsReply[0] == 'ش';
    }
  }

  predicate TicketOneLine(t: TicketRow, showDate: int -> string) {
    '\n' !in t.ticketNumber && '\n' !in t.status && '\n' !in showDate(t.createdAt)
    && OneLine(t.message) && OneLine(t.adminResponse)
  }

  /**
   * When no field contains a newline, an entry is the title, status and
   * message lines, then the response line exactly when a response is set,
   * each ended by a newline (so the last piece of the split is empty).
   */
  lemma TicketEntryLines(t: TicketRow, showDate: int -> string)
    requires TicketOneLine(t, showDate)
    ensures Split(TicketEntry(t, showDate), '\n') == EntryLines(t, showDate)
    ensures EntryLines(t, showDate) ==
      if Truthy(t.adminResponse) then [TicketTitle(t, showDate), StatusLine(t), MessageLine(t), ResponseLine(t), ""]
      else [TicketTitle(t, showDate), StatusLine(t), MessageLine(t), ""]
  {
    EntryLinesOneLine(t, showDate);
    EntryIsJoin(t, showDate);
    SplitJoin(EntryLines(t, showDate), '\n');
  }

  function EntryLines(t: TicketRow, showDate: int -> string): seq<string> {
    [TicketTitle(t, showDate), StatusLine(t), MessageLine(t)] + (if Truthy(t.adminResponse) then [ResponseLine(t)] else []) + [""]
  }

  lemma EntryLinesOneLine(t: TicketRow, showDate: int -> string)
    requires TicketOneLine(t, showDate)
    ensures forall k :: 0 <= k < |EntryLines(t, showDate)| ==> '\n' !in EntryLines(t, showDate)[k]
  {
    StatusMapsOneLine();
    var emoji := InterpolateUndefined(Lookup(StatusEmojis, t.status));
    var statusText := InterpolateUndefined(Lookup(StatusTexts, t.status));
    LookupOneLine(StatusEmojis, t.status);
    LookupOneLine(StatusTexts, t.status);
    TitleOneLine(emoji, t.ticketNumber, showDate(t.createdAt));
    assert '\n' !in StatusLine(t) && '\n' !in MessageLine(t);
    assert Truthy(t.adminResponse) ==> '\n' !in ResponseLine(t);
  }

  lemma TitleOneLine(emoji: string, ticket: string, date: string)
    requires '\n' !in emoji && '\n' !in ticket && '\n' !in date
    ensures '\n' !in emoji + " تیکت " + ticket + " - " + date
  {
  }

  lemma StatusMapsOneLine()
    ensures forall k :: k in StatusEmojis ==> '\n' !in StatusEmojis[k]
    ensures forall k :: k in StatusTexts ==> '\n' !in StatusTexts[k]
  {
  }

  lemma LookupOneLine(m: map<string, string>, k: string)
    requires forall k :: k in m ==> '\n' !in m[k]
    ensures '\n' !in InterpolateUndefined(Lookup(m, k))
  {
  }

  lemma EntryIsJoin(t: TicketRow, showDate: int -> string)
    ensures Join(EntryLines(t, showDate), "\n") == TicketEntry(t, showDate)
  {
    JoinTerminated(TicketTitle(t, showDate), StatusLine(t), MessageLine(t),
      if Truthy(t.adminResponse) then [ResponseLine(t)] else [], "\n");
  }
}
