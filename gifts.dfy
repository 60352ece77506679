/**
 * The gift-preference commands: /addgift "item | description",
 * /removegift item, /mygifts and /suggest @username.
 */
module Gifts {
  import opened Wrappers
  import opened Text
  import opened Queries
  import opened Watchlist

  // ---------------------------------------------------------------------
  // /addgift argument parsing

  /** The parsed argument of /addgift. */
  datatype GiftArgs = GiftArgs(item: string, description: Option<string>)

  /**
   * A field trimmed, or nothing when the trimmed field is empty: the item
   * test `!itemName` and the `description || null` default.
   */
  function NonBlank(x: string): (r: Option<string>)
    ensures r.None? <==> AllSpace(x)
    ensures r.Some? ==> r.value == Trim(x) && r.value != ""
  {
    TrimEmpty(x);
    if Trim(x) == "" then None else Some(Trim(x))
  }

  /**
   * `match[1].split('|').map(s => s.trim())`, destructured into the first
   * two fields; an empty item means the usage reply, and an empty or missing
   * description is stored as null.
   */
  function ParseAddGift(s: string): Option<GiftArgs> {
    var fields := Split(s, '|');
    match NonBlank(fields[0])
    case None => None
    case Some(item) => Some(GiftArgs(item, if |fields| > 1 then NonBlank(fields[1]) else None))
  }

  /**
   * The item is the trimmed text before the first '|', and there is none
   * when that text is blank; the description is the trimmed text between
   * the first and second '|', or none.
   */
  lemma ParseAddGiftFields(s: string)
    ensures var first := s[..IndexOf(s, '|')];
      (ParseAddGift(s).None? <==> AllSpace(first))
      && (ParseAddGift(s).Some? ==> ParseAddGift(s).value.item == Trim(first) && '|' !in ParseAddGift(s).value.item)
    ensures ParseAddGift(s).Some? && '|' !in s ==> ParseAddGift(s).value.description.None?
    ensures ParseAddGift(s).Some? && '|' in s ==>
      var rest := s[IndexOf(s, '|') + 1..];
      ParseAddGift(s).value.description == NonBlank(rest[..IndexOf(rest, '|')])
  {
    var fields := Split(s, '|');
    SplitHead(s, '|');
    ItemField(s[..IndexOf(s, '|')], fields[0]);
    if '|' in s {
      SplitSecond(s, '|');
    }
  }

  /** The item parsed from the first field. */
  lemma ItemField(first: string, field: string)
    requires field == first && '|' !in first
    ensures NonBlank(field).None? <==> AllSpace(first)
    ensures NonBlank(field).Some? ==> NonBlank(field).value == Trim(first) && '|' !in NonBlank(field).value
  {
    if !AllSpace(first) {
      TrimOmits(first, '|');
    }
  }

  /** Trimming keeps only characters of the original. */
  lemma TrimOmits(s: string, c: char)
    requires c !in s
    ensures c !in Trim(s)
  {
    var i, j :| 0 <= i <= j <= |s| && SpacesAround(s, i, j) && Trim(s) == s[i..j];
    forall k | 0 <= k < j - i ensures s[i..j][k] != c {
      assert s[i..j][k] == s[i + k];
    }
  }

  /** The text a user types for a preference. */
  function AddGiftText(g: GiftArgs): string {
    match g.description
    case None => g.item
    case Some(d) => g.item + " | " + d
  }

  /** A trimmed, '|'-free item and description. */
  predicate WellFormed(g: GiftArgs) {
    && g.item != "" && IsTrimmed(g.item) && '|' !in g.item
    && (g.description.Some? ==> g.description.value != "" && IsTrimmed(g.description.value) && '|' !in g.description.value)
  }

  /** An argument without '|' is the item alone. */
  lemma ParseOneField(a: string)
    requires '|' !in a
    ensures ParseAddGift(a) == if AllSpace(a) then None else Some(GiftArgs(Trim(a), None))
  {
    ParseAddGiftFields(a);
    assert a[..IndexOf(a, '|')] == a;
  }

  /** An argument "a|b" with no '|' in a: the item is a trimmed, the description the first field of b. */
  lemma ParseTwoFields(a: string, b: string)
    requires '|' !in a
    ensures var f := b[..IndexOf(b, '|')];
      ParseAddGift(a + "|" + b) == if AllSpace(a) then None else Some(GiftArgs(Trim(a), NonBlank(f)))
  {
    var s := a + "|" + b;
    IndexOfUnique("|" + b, '|', 0);
    assert s == a + ("|" + b);
    IndexOfPrefix(a, "|" + b, '|');
    assert s[..|a|] == a;
    assert s[|a| + 1..] == b;
    ParseAddGiftFields(s);
  }

  /** Typing "item | description" (or just "item") gives back exactly that item and description. */
  lemma ParseAddGiftRoundTrip(g: GiftArgs)
    requires WellFormed(g)
    ensures ParseAddGift(AddGiftText(g)) == Some(g)
  {
    TrimmedIsTrim(g.item);
    match g.description
    case None =>
      ParseOneField(g.item);
    case Some(d) =>
      var a, b := g.item + " ", " " + d;
      assert AddGiftText(g) == a + "|" + b;
      PaddedTrim(g.item, d);
      assert IndexOf(b, '|') == |b| && b[..|b|] == b;
      ParseTwoFields(a, b);
  }

  /** One space after an item or before a description is trimmed away again. */
  lemma PaddedTrim(item: string, d: string)
    requires item != "" && IsTrimmed(item) && d != "" && IsTrimmed(d)
    ensures Trim(item + " ") == item && !AllSpace(item + " ")
    ensures NonBlank(" " + d) == Some(d)
  {
    PadRight(item);
    PadLeft(d);
    TrimEmpty(item + " ");
  }

  lemma PadRight(x: string)
    requires IsTrimmed(x)
    ensures Trim(x + " ") == x
  {
    var a := x + " ";
    assert a[..0] == [] && a[|x|..] == " " && a[0..|x|] == x;
    TrimUnique(a, 0, |x|);
  }

  lemma PadLeft(x: string)
    requires IsTrimmed(x)
    ensures Trim(" " + x) == x
  {
    var b := " " + x;
    assert b[..1] == " " && b[|b|..] == [] && b[1..|b|] == x;
    TrimUnique(b, 1, |b|);
  }

  /** A nonempty trimmed string is its own trim and is not all spaces. */
  lemma TrimmedIsTrim(s: string)
    requires s != "" && IsTrimmed(s)
    ensures Trim(s) == s && !AllSpace(s)
  {
    assert s[..0] == [] && s[|s|..] == [] && s[0..|s|] == s;
    TrimUnique(s, 0, |s|);
    TrimEmpty(s);
  }

  /** Fields after the second are ignored. */
  lemma ExtraFieldsIgnored(a: string, b: string, c: string)
    requires '|' !in a && '|' !in b
    ensures ParseAddGift(a + "|" + b + "|" + c) == ParseAddGift(a + "|" + b)
  {
    var tail := b + "|" + c;
    assert a + "|" + b + "|" + c == a + "|" + tail;
    IndexOfPrefix(b, "|" + c, '|');
    IndexOfUnique("|" + c, '|', 0);
    assert tail == b + ("|" + c);
    assert tail[..|b|] == b;
    IndexOfUnique(b, '|', |b|);
    assert b[..|b|] == b;
    ParseTwoFields(a, tail);
    ParseTwoFields(a, b);
  }

  // ---------------------------------------------------------------------
  // Preference lists

  /** `p.description ? `• ${item} - ${description}` : `• ${item}``. */
  function GiftLine(g: GiftRow): string {
    if Truthy(g.description) then "• " + g.itemName + " - " + g.description.value
    else "• " + g.itemName
  }

  function GiftLines(rows: seq<GiftRow>): (lines: seq<string>)
    ensures |lines| == |rows|
    ensures forall i :: 0 <= i < |rows| ==> lines[i] == GiftLine(rows[i])
  {
    seq(|rows|, i requires 0 <= i < |rows| => GiftLine(rows[i]))
  }

  /** The preference lines joined by newlines. */
  function GiftList(rows: seq<GiftRow>): string {
    Join(GiftLines(rows), "\n")
  }

  lemma GiftLineShape(g: GiftRow)
    ensures |GiftLine(g)| >= 2 + |g.itemName| && GiftLine(g)[..2 + |g.itemName|] == "• " + g.itemName
    ensures '\n' !in g.itemName && OneLine(g.description) ==> '\n' !in GiftLine(g)
  {
    var head := "• " + g.itemName;
    if Truthy(g.description) {
      assert GiftLine(g) == head + (" - " + g.description.value);
    }
  }

  /**
   * When no item or description contains a newline, the list splits back
   * into one line per preference, each starting with the bullet and the
   * item name.
   */
  lemma GiftListLines(rows: seq<GiftRow>)
    requires |rows| > 0
    requires forall i :: 0 <= i < |rows| ==> '\n' !in rows[i].itemName && OneLine(rows[i].description)
    ensures Split(GiftList(rows), '\n') == GiftLines(rows)
    ensures forall i :: 0 <= i < |rows| ==>
      var line := Split(GiftList(rows), '\n')[i];
      |line| >= 2 + |rows[i].itemName| && line[..2 + |rows[i].itemName|] == "• " + rows[i].itemName
  {
    var lines := GiftLines(rows);
    forall k | 0 <= k < |lines|
      ensures '\n' !in lines[k]
      ensures |lines[k]| >= 2 + |rows[k].itemName| && lines[k][..2 + |rows[k].itemName|] == "• " + rows[k].itemName
    {
      GiftLineShape(rows[k]);
    }
    SplitJoin(lines, '\n');
  }

  // ---------------------------------------------------------------------
  // Handlers

  const AddGiftUsage := "Please provide an item name. Usage: /addgift item name | optional description"
  const RemoveGiftUsage := "Please provide an item name to remove. Usage: /removegift item name"
  const SuggestUsage := "Please provide a username. Usage: /suggest @username"
  const ErrorReply := "Sorry, there was an error processing your request."
  const NoGiftsReply := "You haven't added any gift preferences yet. Use /addgift to add some!"
  const UnknownUserReply := "User not found. Make sure they have interacted with the bot!"

  function AddedGiftReply(item: string): string {
    "Added \"" + item + "\" to your gift preferences! 🎁"
  }

  function RemovedGiftReply(item: string): string {
    "Removed \"" + item + "\" from your gift preferences! ✅"
  }

  function MyGiftsReply(rows: seq<GiftRow>): string {
    "🎁 Your gift preferences:\n\n" + GiftList(rows)
  }

  function NoSuggestionsReply(shown: string): string {
    shown + " hasn't added any gift preferences yet!"
  }

  function SuggestionsReply(shown: string, rows: seq<GiftRow>): string {
    "🎁 Gift suggestions for " + shown + ":\n\n" + GiftList(rows)
  }

  /**
   * addGiftHandler: a missing argument fails (the `split` of undefined
   * throws) with the generic reply; an empty item gets the usage text;
   * otherwise the item is upserted with its description or null, and a
   * confirmation that cannot be sent falls back to the generic reply.
   */
  method AddGiftHandler(db: Database, userId: UserId, chatId: UserId, arg: Option<string>,
                        delivers: (UserId, string) -> bool) returns (sent: seq<Notice>)
    requires db.Valid()
    modifies db
    ensures db.Valid()
    ensures arg.None? ==> sent == Attempt(chatId, ErrorReply, delivers) && db.State() == old(db.State())
    ensures arg.Some? && ParseAddGift(arg.value).None? ==>
      sent == Attempt(chatId, AddGiftUsage, delivers) && db.State() == old(db.State())
    ensures arg.Some? && ParseAddGift(arg.value).Some? ==>
      var g := ParseAddGift(arg.value).value;
      if |g.item| <= MaxItemName && userId in old(db.users) then
        sent == SendOrFallback(chatId, AddedGiftReply(g.item), ErrorReply, delivers)
        && db.giftPreferences == old(db.giftPreferences)[GiftKey(userId, g.item) := g.description]
      else
        sent == Attempt(chatId, ErrorReply, delivers) && db.giftPreferences == old(db.giftPreferences)
    ensures db.users == old(db.users) && db.birthdays == old(db.birthdays)
    ensures db.watchlist == old(db.watchlist) && db.reminderLogs == old(db.reminderLogs)
  {
    if arg.None? {
      return Attempt(chatId, ErrorReply, delivers);
    }
    var parsed := ParseAddGift(arg.value);
    if parsed.None? {
      return Attempt(chatId, AddGiftUsage, delivers);
    }
    var g := parsed.value;
    var r := db.AddGiftPreference(userId, g.item, g.description);
    if r.Pass? {
      sent := SendOrFallback(chatId, AddedGiftReply(g.item), ErrorReply, delivers);
    } else {
      sent := Attempt(chatId, ErrorReply, delivers);
    }
  }

  /**
   * removeGiftHandler: a blank argument gets the usage text; otherwise that
   * one item is deleted and confirmed, with the generic reply when the
   * confirmation cannot be sent.
   */
  method RemoveGiftHandler(db: Database, userId: UserId, chatId: UserId, arg: Option<string>,
                           delivers: (UserId, string) -> bool) returns (sent: seq<Notice>)
    requires db.Valid()
    modifies db
    ensures db.Valid()
    ensures TrimmedArg(arg).None? ==> sent == Attempt(chatId, RemoveGiftUsage, delivers) && db.State() == old(db.State())
    ensures TrimmedArg(arg).Some? ==>
      sent == SendOrFallback(chatId, RemovedGiftReply(TrimmedArg(arg).value), ErrorReply, delivers)
      && db.giftPreferences == old(db.giftPreferences) - {GiftKey(userId, TrimmedArg(arg).value)}
    ensures db.users == old(db.users) && db.birthdays == old(db.birthdays)
    ensures db.watchlist == old(db.watchlist) && db.reminderLogs == old(db.reminderLogs)
  {
    var item := TrimmedArg(arg);
    if item.None? {
      return Attempt(chatId, RemoveGiftUsage, delivers);
    }
    db.RemoveGiftPreference(userId, item.value);
    sent := SendOrFallback(chatId, RemovedGiftReply(item.value), ErrorReply, delivers);
  }

  /** `rows` lists the preference set `prefs`, which is not empty, each row and each item name once. */
  ghost predicate Listing(rows: seq<GiftRow>, prefs: set<GiftRow>) {
    && |rows| > 0
    && (forall g :: g in rows <==> g in prefs)
    && Distinct(rows)
    && (forall i, j :: 0 <= i < j < |rows| ==> rows[i].itemName != rows[j].itemName)
  }

  /**
   * listGiftsHandler: the "none yet" reply, or the user's preferences one
   * per line, each item once; a listing that cannot be sent falls back to
   * the generic reply.
   */
  method ListGiftsHandler(db: Database, userId: UserId, chatId: UserId,
                          delivers: (UserId, string) -> bool) returns (sent: seq<Notice>)
    ensures GiftRows(db.State(), userId) == {} ==> sent == Attempt(chatId, NoGiftsReply, delivers)
    ensures GiftRows(db.State(), userId) != {} ==>
      exists rows :: Listing(rows, GiftRows(db.State(), userId))
                     && sent == SendOrFallback(chatId, MyGiftsReply(rows), ErrorReply, delivers)
  {
    var rows := db.GetUserGiftPreferences(userId);
    if |rows| == 0 {
      return Attempt(chatId, NoGiftsReply, delivers);
    }
    assert rows[0] in GiftRows(db.State(), userId);
    assert Listing(rows, GiftRows(db.State(), userId));
    sent := SendOrFallback(chatId, MyGiftsReply(rows), ErrorReply, delivers);
  }

  /**
   * suggestGiftsHandler: a blank argument gets the usage text; the first '@'
   * is stripped; an unknown user gets the not-found reply; a user with no
   * preferences gets the "hasn't added" reply; otherwise their list, each
   * item once, with the generic reply when it cannot be sent. The replies
   * echo the trimmed argument, '@' included.
   */
  method SuggestGiftsHandler(db: Database, chatId: UserId, arg: Option<string>,
                             delivers: (UserId, string) -> bool) returns (sent: seq<Notice>)
    ensures TrimmedArg(arg).None? ==> sent == Attempt(chatId, SuggestUsage, delivers)
    ensures TrimmedArg(arg).Some? && !HasUsername(db.users, CleanUsername(TrimmedArg(arg).value)) ==>
      sent == Attempt(chatId, UnknownUserReply, delivers)
    ensures TrimmedArg(arg).Some? && HasUsername(db.users, CleanUsername(TrimmedArg(arg).value)) ==>
      exists id :: id in db.users && db.users[id].username == Some(CleanUsername(TrimmedArg(arg).value))
        && (GiftRows(db.State(), id) == {} ==> sent == Attempt(chatId, NoSuggestionsReply(TrimmedArg(arg).value), delivers))
        && (GiftRows(db.State(), id) != {} ==>
              exists rows :: Listing(rows, GiftRows(db.State(), id))
                             && sent == SendOrFallback(chatId, SuggestionsReply(TrimmedArg(arg).value, rows), ErrorReply, delivers))
  {
    var username := TrimmedArg(arg);
    if username.None? {
      return Attempt(chatId, SuggestUsage, delivers);
    }
    var user := db.GetUserByUsername(CleanUsername(username.value));
    if user.None? {
      return Attempt(chatId, UnknownUserReply, delivers);
    }
    var id := user.value.userId;
    var rows := db.GetUserGiftPreferences(id);
    if |rows| == 0 {
      sent := Attempt(chatId, NoSuggestionsReply(username.value), delivers);
    } else {
      assert rows[0] in GiftRows(db.State(), id);
      assert Listing(rows, GiftRows(db.State(), id));
      sent := SendOrFallback(chatId, SuggestionsReply(username.value, rows), ErrorReply, delivers);
    }
    assert id in db.users && db.users[id].username == Some(CleanUsername(username.value));
  }
}
