/** The `ForstaBot` object. Its fields are the values the bot keeps in its
    storage (the administrator ids, the pending login codes, the failed-login
    counter, the language preferences and the two authentication thread ids)
    together with an outbox standing for the message sender and a log of the
    translation requests. The directory lookups, the translation service and
    the language-name converter are fixed functions given at construction;
    the clock, the code-word generator, the fresh thread ids and the
    relative-time wording are arguments of the methods that use them. */
module Bot {
  import opened Results
  import opened Text
  import opened Users
  import opened Admins
  import opened Challenges
  import opened Notices
  import opened Routing

  /** An element of `getAdministrators`' result. */
  datatype AdminEntry = AdminEntry(id: UserId, fqLabel: string)

  function Entries(users: seq<User>): (r: seq<AdminEntry>)
    ensures |r| == |users|
    ensures forall k :: 0 <= k < |r| ==> r[k] == AdminEntry(users[k].id, FqLabel(users[k]))
  {
    seq(|users|, k requires 0 <= k < |users| => AdminEntry(users[k].id, FqLabel(users[k])))
  }

  /** The stored admin ids as read with the default `[]`. */
  function OrEmpty(ids: Option<seq<UserId>>): seq<UserId> {
    if ids.Some? then ids.value else []
  }

  const LOGIN_TITLE: string := "Message Bot Login"
  const ALERTS_TITLE: string := "Compliance Alerts"
  const NOT_RECOGNIZED: string := "not a recognized tag, please try again"
  const NOT_AUTHORIZED: string := "not an authorized user"
  const NO_PENDING: string := "no authentication pending, please start over"
  const INCORRECT: string := "incorrect codewords, please try again"
  const ID_NOT_FOUND: string := "administrator id not found"

  function AddedNote(uid: UserId): string {
    "ADDED <<" + uid + ">> to authorized users"
  }

  function RemovingNote(id: UserId): string {
    "REMOVING <<" + id + ">> from authorized users"
  }

  /** A note naming one stored administrator through a placeholder renders
      that administrator's label, and they are among the listed users. */
  lemma AdminNoticeText(dir: Directory, ids: seq<UserId>, pre: string, uid: UserId, post: string, actor: UserId)
    requires Keyed(dir) && uid in ids && uid in dir && '>' !in uid
    requires '<' !in pre && '<' !in post
    requires InertLabels(GetUsers(dir, Recipients(ids, actor)))
    ensures ComposeNotice(dir, ids, pre + "<<" + uid + ">>" + post, actor, true).Some?
    ensures ComposeNotice(dir, ids, pre + "<<" + uid + ">>" + post, actor, true).value.text
         == pre + FqLabel(dir[uid]) + post + Performed(dir, actor) + Listing(GetUsers(dir, ids), true)
    ensures dir[uid] in GetUsers(dir, ids)
  {
    PlainInert(pre);
    PlainInert(post);
    RecipientsSpec(ids, actor);
    PlaceholderNoticeText(dir, ids, pre, uid, post, actor, true);
    GetUsersExact(dir, ids);
  }

  /** The ADDED notice names the new administrator by label and lists every
      stored administrator the directory knows, the new one included. */
  lemma AddedNoticeText(dir: Directory, ids: seq<UserId>, uid: UserId, actor: UserId)
    requires Keyed(dir) && uid in ids && uid in dir && '>' !in uid
    requires InertLabels(GetUsers(dir, Recipients(ids, actor)))
    ensures ComposeNotice(dir, ids, AddedNote(uid), actor, true).Some?
    ensures ComposeNotice(dir, ids, AddedNote(uid), actor, true).value.text
         == "ADDED " + FqLabel(dir[uid]) + " to authorized users" + Performed(dir, actor) + Listing(GetUsers(dir, ids), true)
    ensures dir[uid] in GetUsers(dir, ids)
  {
    var pre, post := "ADDED ", " to authorized users";
    assert AddedNote(uid) == pre + "<<" + uid + ">>" + post;
    AdminNoticeText(dir, ids, pre, uid, post, actor);
  }

  /** The REMOVING notice is composed against the list that still holds the
      removed administrator: it names them by label and still lists them. */
  lemma RemovingNoticeText(dir: Directory, ids: seq<UserId>, removeId: UserId, actor: UserId)
    requires Keyed(dir) && removeId in ids && removeId in dir && '>' !in removeId
    requires InertLabels(GetUsers(dir, Recipients(ids, actor)))
    ensures ComposeNotice(dir, ids, RemovingNote(removeId), actor, true).Some?
    ensures ComposeNotice(dir, ids, RemovingNote(removeId), actor, true).value.text
         == "REMOVING " + FqLabel(dir[removeId]) + " from authorized users" + Performed(dir, actor) + Listing(GetUsers(dir, ids), true)
    ensures dir[removeId] in GetUsers(dir, ids)
  {
    var pre, post := "REMOVING ", " from authorized users";
    assert RemovingNote(removeId) == pre + "<<" + removeId + ">>" + post;
    AdminNoticeText(dir, ids, pre, removeId, post, actor);
  }

  class ForstaBot {
    const ourId: UserId
    const ourSlug: string
    const directory: Directory
    const resolveTags: string -> Distribution
    const translator: (string, string) -> string
    const isoConv: string -> string

    /** `authentication/adminIds`; `None` while it has never been set. */
    var adminIds: Option<seq<UserId>>
    /** `authentication/pending`. */
    var pending: Pending
    /** `authentication/fails`; `None` while it has never been set. */
    var fails: Option<FailCount>
    /** The `language` table: preferred language per user id. */
    var language: map<UserId, string>
    /** `authentication/soloThreadId` and `groupThreadId`; "" while unset. */
    var soloThreadId: string
    var groupThreadId: string
    /** Every message handed to the sender, in order. */
    var outbox: seq<Outgoing>
    /** Every translation requested, in order. */
    var translations: seq<TranslationRequest>

    /** The directory files every record under its id, and knows the bot,
        whose tag is `ourSlug`. */
    predicate Valid() {
      Keyed(directory) && ourId in directory && ourSlug == directory[ourId].tagSlug
    }

    /** The bot as `start()` leaves it: its identity and collaborators, and
        whatever its storage already holds. */
    constructor (ourId: UserId, directory: Directory, resolveTags: string -> Distribution,
                 translator: (string, string) -> string, isoConv: string -> string,
                 admins: Option<seq<UserId>>, pending: Pending, fails: Option<FailCount>,
                 language: map<UserId, string>, soloThreadId: string, groupThreadId: string)
      requires Keyed(directory) && ourId in directory
      ensures Valid()
      ensures this.ourId == ourId && this.directory == directory && this.resolveTags == resolveTags
      ensures this.translator == translator && this.isoConv == isoConv
      ensures adminIds == admins && this.pending == pending && this.fails == fails && this.language == language
      ensures this.soloThreadId == soloThreadId && this.groupThreadId == groupThreadId
      ensures outbox == [] && translations == []
    {
      this.ourId := ourId;
      this.ourSlug := directory[ourId].tagSlug;
      this.directory := directory;
      this.resolveTags := resolveTags;
      this.translator := translator;
      this.isoConv := isoConv;
      adminIds := admins;
      this.pending := pending;
      this.fails := fails;
      this.language := language;
      this.soloThreadId := soloThreadId;
      this.groupThreadId := groupThreadId;
      outbox := [];
      translations := [];
    }

    // ------------------------------------------------------- thread ids

    /** `getSoloAuthThreadId`: the stored id, or `newId` (a fresh uuid),
        which is then stored. */
    method GetSoloAuthThreadId(newId: string) returns (id: string)
      modifies this`soloThreadId
      ensures id == if old(soloThreadId) != "" then old(soloThreadId) else newId
      ensures soloThreadId == id
    {
      id := soloThreadId;
      if id == "" {
        id := newId;
        soloThreadId := id;
      }
    }

    /** `getGroupAuthThreadId`: as above, for the login thread. */
    method GetGroupAuthThreadId(newId: string) returns (id: string)
      modifies this`groupThreadId
      ensures id == if old(groupThreadId) != "" then old(groupThreadId) else newId
      ensures groupThreadId == id
    {
      id := groupThreadId;
      if id == "" {
        id := newId;
        groupThreadId := id;
      }
    }

    // ---------------------------------------------------------- notices

    /** Nothing was sent and no thread id was created. */
    twostate predicate Quiet()
      reads this
    {
      outbox == old(outbox) && soloThreadId == old(soloThreadId)
    }

    /** The notice composed against `admins` went out, in the compliance
        thread, to the resolution of its tag expression. */
    twostate predicate NoticeSent(admins: seq<UserId>, note: string, actor: UserId, listAll: bool, newThreadId: string)
      reads this
    {
      var n := ComposeNotice(directory, admins, note, actor, listAll);
      && n.Some?
      && soloThreadId == (if old(soloThreadId) != "" then old(soloThreadId) else newThreadId)
      && outbox == old(outbox) + [Outgoing(resolveTags(n.value.expression), Some(ALERTS_TITLE), soloThreadId, None, n.value.text)]
    }

    /** `broadcastNotice({note, actorUserId, listAll})`: `false` when the
        placeholder replacement throws, in which case nothing is sent. */
    method BroadcastNotice(note: string, actor: UserId, listAll: bool, newThreadId: string) returns (ok: bool)
      modifies this`soloThreadId, this`outbox
      ensures ok == ComposeNotice(directory, OrEmpty(adminIds), note, actor, listAll).Some?
      ensures ok ==> NoticeSent(OrEmpty(adminIds), note, actor, listAll, newThreadId)
      ensures !ok ==> Quiet()
    {
      var ids := OrEmpty(adminIds);
      var added := false;
      if actor != "" && actor !in ids {
        ids := ids + [actor];
        added := true;
      }
      var users := GetUsers(directory, ids);
      var distribution := resolveTags(Join(Tags(users), " + "));
      var full := note + Attribution(users, actor) + Listing(Listed(users, added, actor), listAll);
      var text := Substitute(full, users);
      if text.None? {
        return false;
      }
      var tid := GetSoloAuthThreadId(newThreadId);
      outbox := outbox + [Outgoing(distribution, Some(ALERTS_TITLE), tid, None, text.value)];
      return true;
    }

    // ----------------------------------------------------- fail counter

    /** The effect of one failed comparison: the counter goes up by one; at
        the threshold and above a security alert is broadcast first, and when
        that broadcast throws the counter is not written. */
    twostate predicate FailureRecorded(now: int, ago: string, newThreadId: string)
      reads this
    {
      var f := Bumped(old(fails), now);
      var note := AlertNote(f, ago);
      if !AlertFires(f) then fails == Some(f) && Quiet()
      else if ComposeNotice(directory, OrEmpty(adminIds), note, "", true).Some? then
        fails == Some(f) && NoticeSent(OrEmpty(adminIds), note, "", true, newThreadId)
      else fails == old(fails) && Quiet()
    }

    /** `incrementAuthFailCount`; `ago` is the relative rendering of the
        counter's `since`. */
    method IncrementAuthFailCount(now: int, ago: string, newThreadId: string)
      modifies this`fails, this`soloThreadId, this`outbox
      ensures FailureRecorded(now, ago, newThreadId)
    {
      var f := Bumped(fails, now);
      if f.count >= AUTH_FAIL_THRESHOLD {
        var ok := BroadcastNotice(AlertNote(f, ago), "", true, newThreadId);
        if !ok {
          return;
        }
      }
      fails := Some(f);
    }

    /** `resetAuthFailCount`. */
    method ResetAuthFailCount(now: int)
      modifies this`fails
      ensures fails == Some(FailCount(0, now))
    {
      fails := Some(FailCount(0, now));
    }

    // ------------------------------------------------------------ login

    /** `sendAuthCode(tag)`: a one-minute code for the single administrator
        the tag names, delivered in the login thread; the result is that
        administrator's id. */
    method SendAuthCode(tag: string, now: int, adjective: string, noun: string, newThreadId: string)
      returns (r: Result<UserId>)
      modifies this`pending, this`groupThreadId, this`outbox
      ensures var resolved := resolveTags(AsTag(tag));
              && (!SingleTarget(resolved) ==> r == Err(Http(400, "tag", NOT_RECOGNIZED)))
              && (SingleTarget(resolved) && adminIds.None? ==> r == Err(Crash))
              && (SingleTarget(resolved) && adminIds.Some? && resolved.userids[0] !in adminIds.value ==>
                    r == Err(Http(403, "tag", NOT_AUTHORIZED)))
              && (r.Ok? <==> SingleTarget(resolved) && adminIds.Some? && resolved.userids[0] in adminIds.value)
      ensures r.Err? ==> pending == old(pending) && groupThreadId == old(groupThreadId) && outbox == old(outbox)
      ensures r.Ok? ==>
                var resolved := resolveTags(AsTag(tag));
                var auth := GenAuthCode(1, now, adjective, noun);
                && r.value == resolved.userids[0]
                && pending == old(pending)[r.value := auth]
                && groupThreadId == (if old(groupThreadId) != "" then old(groupThreadId) else newThreadId)
                && outbox == old(outbox) + [Outgoing(resolved, Some(LOGIN_TITLE), groupThreadId, None, CodeText(auth))]
    {
      var resolved := resolveTags(AsTag(tag));
      if !(|resolved.userids| == 1 && |resolved.warnings| == 0) {
        return Err(Http(400, "tag", NOT_RECOGNIZED));
      }
      var uid := resolved.userids[0];
      if adminIds.None? {
        return Err(Crash);
      }
      if uid !in adminIds.value {
        return Err(Http(403, "tag", NOT_AUTHORIZED));
      }
      var auth := GenAuthCode(1, now, adjective, noun);
      var tid := GetGroupAuthThreadId(newThreadId);
      outbox := outbox + [Outgoing(resolved, Some(LOGIN_TITLE), tid, None, CodeText(auth))];
      pending := pending[uid := auth];
      return Ok(uid);
    }

    /** `validateAuthCode(userId, code)`. Expired codes count as absent; a
        wrong code keeps the entry and counts a failure; the right code is
        consumed (the purge is written back with it), a LOGIN notice names
        the user, and the counter is reset. */
    method ValidateAuthCode(userId: UserId, code: string, now: int, ago: string, newThreadId: string)
      returns (r: Result<bool>)
      modifies this`pending, this`fails, this`soloThreadId, this`outbox
      ensures var live := Unexpired(old(pending), now);
              userId !in live ==>
                r == Err(Http(403, "code", NO_PENDING)) && pending == old(pending) && fails == old(fails) && Quiet()
      ensures var live := Unexpired(old(pending), now);
              userId in live && live[userId].code != code ==>
                r == Err(Http(403, "code", INCORRECT)) && pending == old(pending)
                && FailureRecorded(now, ago, newThreadId)
      ensures var live := Unexpired(old(pending), now);
              userId in live && live[userId].code == code ==>
                && pending == live - {userId}
                && var n := ComposeNotice(directory, OrEmpty(adminIds), "LOGIN", userId, false);
                && (n.None? ==> r == Err(Crash) && fails == old(fails) && Quiet())
                && (n.Some? ==> r == Ok(true) && fails == Some(FailCount(0, now))
                                && NoticeSent(OrEmpty(adminIds), "LOGIN", userId, false, newThreadId))
    {
      var live := RemoveExpiredAuthCodes(pending, now);
      if userId !in live {
        return Err(Http(403, "code", NO_PENDING));
      }
      if live[userId].code != code {
        IncrementAuthFailCount(now, ago, newThreadId);
        return Err(Http(403, "code", INCORRECT));
      }
      pending := live - {userId};
      var ok := BroadcastNotice("LOGIN", userId, false, newThreadId);
      if !ok {
        return Err(Crash);
      }
      ResetAuthFailCount(now);
      return Ok(true);
    }

    // ---------------------------------------------------- administrators

    /** `getAdministrators`: id and label of every stored admin id the
        directory knows, in stored order. */
    function Administrators(): (r: seq<AdminEntry>)
      reads this
      requires Valid()
      ensures |r| <= |OrEmpty(adminIds)|
      ensures forall e :: e in r <==>
                e.id in OrEmpty(adminIds) && e.id in directory && e.fqLabel == FqLabel(directory[e.id])
    {
      var users := GetUsers(directory, OrEmpty(adminIds));
      GetUsersExact(directory, OrEmpty(adminIds));
      Entries(users)
    }

    /** `addAdministrator({addTag, actorUserId})`: the tag's single user is
        appended when absent and stored, then the ADDED notice goes out
        against the new list. */
    method AddAdministrator(addTag: string, actor: UserId, newThreadId: string)
      returns (r: Result<seq<AdminEntry>>)
      requires Valid()
      modifies this`adminIds, this`soloThreadId, this`outbox
      ensures var resolved := resolveTags(AsTag(addTag));
              !SingleTarget(resolved) ==>
                r == Err(Http(400, "tag", NOT_RECOGNIZED)) && adminIds == old(adminIds) && Quiet()
      ensures var resolved := resolveTags(AsTag(addTag));
              SingleTarget(resolved) && old(adminIds).None? ==>
                r == Err(Crash) && adminIds == old(adminIds) && Quiet()
      ensures var resolved := resolveTags(AsTag(addTag));
              SingleTarget(resolved) && old(adminIds).Some? ==>
                var uid := resolved.userids[0];
                var ids := WithAdmin(old(adminIds).value, uid);
                && adminIds == Some(ids)
                && var n := ComposeNotice(directory, ids, AddedNote(uid), actor, true);
                && (n.None? ==> r == Err(Crash) && Quiet())
                && (n.Some? ==> r == Ok(Administrators()) && NoticeSent(ids, AddedNote(uid), actor, true, newThreadId))
    {
      var resolved := resolveTags(AsTag(addTag));
      if !(|resolved.userids| == 1 && |resolved.warnings| == 0) {
        return Err(Http(400, "tag", NOT_RECOGNIZED));
      }
      var uid := resolved.userids[0];
      if adminIds.None? {
        return Err(Crash);
      }
      var ids := adminIds.value;
      if uid !in ids {
        ids := ids + [uid];
        adminIds := Some(ids);
      }
      var ok := BroadcastNotice(AddedNote(uid), actor, true, newThreadId);
      if !ok {
        return Err(Crash);
      }
      return Ok(Administrators());
    }

    /** `removeAdministrator({removeId, actorUserId})`: the first occurrence
        is spliced out of a copy, the REMOVING notice goes out against the
        stored list (which still holds the id), and only then is the copy
        stored. */
    method RemoveAdministrator(removeId: UserId, actor: UserId, newThreadId: string)
      returns (r: Result<seq<AdminEntry>>)
      requires Valid()
      modifies this`adminIds, this`soloThreadId, this`outbox
      ensures var ids := OrEmpty(old(adminIds));
              removeId !in ids ==>
                r == Err(Http(400, "id", ID_NOT_FOUND)) && adminIds == old(adminIds) && Quiet()
      ensures var ids := OrEmpty(old(adminIds));
              removeId in ids ==>
                var n := ComposeNotice(directory, ids, RemovingNote(removeId), actor, true);
                && (n.None? ==> r == Err(Crash) && adminIds == old(adminIds) && Quiet())
                && (n.Some? ==> adminIds == Some(WithoutAdmin(ids, removeId)) && r == Ok(Administrators())
                                && NoticeSent(ids, RemovingNote(removeId), actor, true, newThreadId))
    {
      var ids := OrEmpty(adminIds);
      var idx := IndexOf(ids, removeId);
      if idx < 0 {
        return Err(Http(400, "id", ID_NOT_FOUND));
      }
      var remaining := ids[..idx] + ids[idx + 1..];
      var ok := BroadcastNotice(RemovingNote(removeId), actor, true, newThreadId);
      if !ok {
        return Err(Crash);
      }
      adminIds := Some(remaining);
      return Ok(Administrators());
    }

    // ---------------------------------------------------------- messages

    /** The effect of `respondToCommand`: "language <arg>" stores the
        normalised argument as the sender's preference and replies with the
        confirmation translated into it; "help" replies with the command
        list; any other command, or "language" without an argument (where
        the source throws), changes nothing. */
    twostate predicate CommandAnswered(dist: Distribution, threadId: string, msgId: string, text: string, senderId: UserId)
      reads this
    {
      var cmd := CommandWord(text);
      var arg := CommandArgument(text);
      if cmd == Some("language") && arg.Some? then
        var lang := NormalizeLanguage(arg.value, isoConv);
        && language == old(language)[senderId := lang]
        && translations == old(translations) + [TranslationRequest(LanguageSetReply(lang), lang)]
        && outbox == old(outbox) + [Reply(dist, threadId, msgId, translator(LanguageSetReply(lang), lang))]
      else
        && language == old(language)
        && translations == old(translations)
        && outbox == old(outbox) + (if cmd == Some("help") then [Reply(dist, threadId, msgId, HELP_REPLY)] else [])
    }

    /** The effect of `translateByUser`: one translation request per distinct
        preferred language of the recipients, and a reply for each one that
        is worth sending. */
    twostate predicate FannedOut(dist: Distribution, threadId: string, msgId: string, text: string)
      reads this
    {
      var langs := DistinctLanguages(GetUsers(directory, dist.userids), old(language));
      && language == old(language)
      && translations == old(translations) + Requests(langs, text)
      && outbox == old(outbox) + FanOut(langs, text, translator, dist, threadId, msgId)
    }

    /** `setSenderLanguage(senderId, language)`. */
    method SetSenderLanguage(senderId: UserId, raw: string) returns (lang: string)
      modifies this`language
      ensures lang == NormalizeLanguage(raw, isoConv)
      ensures language == old(language)[senderId := lang]
    {
      lang := raw;
      if |raw| > 3 {
        lang := isoConv(Capitalize(raw));
      }
      language := language[senderId := lang];
    }

    /** `respondToCommand(dist, threadId, messageId, messageText, senderId)`. */
    method RespondToCommand(dist: Distribution, threadId: string, msgId: string, text: string, senderId: UserId)
      modifies this`language, this`translations, this`outbox
      ensures CommandAnswered(dist, threadId, msgId, text, senderId)
    {
      var tokens := Words(text);
      if |tokens| > 1 && tokens[1] == "language" {
        if |tokens| <= 2 {
          return;
        }
        var lang := SetSenderLanguage(senderId, tokens[2]);
        var reply := LanguageSetReply(lang);
        translations := translations + [TranslationRequest(reply, lang)];
        var translated := translator(reply, lang);
        outbox := outbox + [Reply(dist, threadId, msgId, translated)];
      }
      if |tokens| > 1 && tokens[1] == "help" {
        outbox := outbox + [Reply(dist, threadId, msgId, HELP_REPLY)];
      }
    }

    /** The first loop of `translateByUser`: adds each recipient's truthy
        preference to an insertion-ordered set. */
    method CollectLanguages(recipients: seq<User>) returns (langs: seq<string>)
      ensures langs == DistinctLanguages(recipients, language)
    {
      langs := [];
      var i := 0;
      while i < |recipients|
        invariant i <= |recipients|
        invariant langs == DistinctLanguages(recipients[..i], language)
      {
        assert recipients[..i + 1][..i] == recipients[..i];
        var l := Preference(language, recipients[i].id);
        if l != "" && l !in langs {
          langs := langs + [l];
        }
        i := i + 1;
      }
      assert recipients[..i] == recipients;
    }

    /** `translateByUser(dist, threadId, messageId, messageText, senderId)`:
        collects the recipients' preferences into an insertion-ordered set,
        then translates the text once per language. */
    method TranslateByUser(dist: Distribution, threadId: string, msgId: string, text: string)
      modifies this`translations, this`outbox
      ensures FannedOut(dist, threadId, msgId, text)
    {
      var langs := CollectLanguages(GetUsers(directory, dist.userids));
      SendTranslations(langs, dist, threadId, msgId, text);
    }

    /** The second loop of `translateByUser`: per language, one translation
        request and, when the translation is worth it, one reply. */
    method SendTranslations(langs: seq<string>, dist: Distribution, threadId: string, msgId: string, text: string)
      modifies this`translations, this`outbox
      ensures translations == old(translations) + Requests(langs, text)
      ensures outbox == old(outbox) + FanOut(langs, text, translator, dist, threadId, msgId)
    {
      var j := 0;
      while j < |langs|
        invariant j <= |langs|
        invariant translations == old(translations) + Requests(langs[..j], text)
        invariant outbox == old(outbox) + FanOut(langs[..j], text, translator, dist, threadId, msgId)
      {
        FanOutStep(langs, j, text, translator, dist, threadId, msgId);
        RequestsStep(langs, j, text);
        var translation := translator(text, langs[j]);
        translations := translations + [TranslationRequest(text, langs[j])];
        if Worthwhile(text, translation) {
          outbox := outbox + [Reply(dist, threadId, msgId, translation)];
        }
        j := j + 1;
      }
      assert langs[..j] == langs;
    }

    /** `onMessage(ev)` for an envelope already parsed into payloads. */
    method OnMessage(env: seq<Payload>) returns (route: Route)
      modifies this`language, this`translations, this`outbox
      ensures route == Classify(Selected(env), ourId, ourSlug)
      ensures route == Unsupported || route == Ignored ==>
                language == old(language) && translations == old(translations) && outbox == old(outbox)
      ensures route == Command ==>
                var m := Selected(env).value;
                CommandAnswered(resolveTags(m.distExpression), m.threadId, m.messageId, m.text, m.senderId)
      ensures route == Translate ==>
                var m := Selected(env).value;
                FannedOut(resolveTags(m.distExpression), m.threadId, m.messageId, m.text)
    {
      var msg := GetMsg(env);
      if msg.None? {
        return Unsupported;
      }
      var m := msg.value;
      if m.messageType == "control" {
        return Ignored;
      }
      if m.senderId == ourId {
        return Ignored;
      }
      var dist := resolveTags(m.distExpression);
      if ourId in m.mentions || Words(m.text)[0] == "@" + ourSlug {
        RespondToCommand(dist, m.threadId, m.messageId, m.text, m.senderId);
        return Command;
      }
      TranslateByUser(dist, m.threadId, m.messageId, m.text);
      return Translate;
    }
  }
}
