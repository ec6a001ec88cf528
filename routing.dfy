/** Routing of an incoming message: picking the version-1 payload of the
    envelope, deciding whether the message is dropped, a command to the bot
    or text to translate, reading the command and its argument off the
    whitespace-free tokens, normalising a language argument, and the
    translation fan-out over the recipients' distinct preferred languages. */
module Routing {
  import opened Results
  import opened Text
  import opened Users

  /** One element of the parsed message envelope, with the fields the bot
      reads: `data.body[0].value` is `text`, `data.mentions` (empty when
      absent) is `mentions`, `distribution.expression` is `distExpression`. */
  datatype Payload = Payload(
    version: int,
    messageType: string,
    text: string,
    senderId: UserId,
    threadId: string,
    messageId: string,
    distExpression: string,
    mentions: seq<UserId>)

  // ------------------------------------------------------------ getMsg

  /** Position of the first payload whose version is exactly 1, or `|env|`
      when there is none. */
  function FirstVersionOneAt(env: seq<Payload>): (i: nat)
    ensures i <= |env|
    ensures i < |env| ==> env[i].version == 1
    ensures forall j :: 0 <= j < i ==> env[j].version != 1
  {
    if env == [] || env[0].version == 1 then 0
    else
      var i := 1 + FirstVersionOneAt(env[1..]);
      assert forall j :: 1 <= j < i ==> env[j] == env[1..][j - 1];
      i
  }

  /** The payload `getMsg` returns. */
  function Selected(env: seq<Payload>): Option<Payload> {
    var i := FirstVersionOneAt(env);
    if i < |env| then Some(env[i]) else None
  }

  /** `getMsg`: scans the envelope and stops at the first payload with
      version 1; nothing when no payload has that version. */
  method GetMsg(env: seq<Payload>) returns (msg: Option<Payload>)
    ensures msg.None? <==> forall k :: 0 <= k < |env| ==> env[k].version != 1
    ensures msg == Selected(env)
  {
    var k := 0;
    while k < |env|
      invariant k <= |env|
      invariant forall j :: 0 <= j < k ==> env[j].version != 1
    {
      if env[k].version == 1 {
        msg := Some(env[k]);
        return;
      }
      k := k + 1;
    }
    msg := None;
  }

  // ------------------------------------------------------------ onMessage

  /** What `onMessage` does with a message. */
  datatype Route =
    | Unsupported   // no version-1 payload
    | Ignored       // a control message, or one the bot sent itself
    | Command       // addressed to the bot: answered by respondToCommand
    | Translate     // anything else: handed to translateByUser

  /** The bot is addressed: its id is among the mentions, or the text before
      the first whitespace is its `@tag`. */
  predicate Mentioned(m: Payload, ourId: UserId, ourSlug: string) {
    ourId in m.mentions || Words(m.text)[0] == "@" + ourSlug
  }

  function Classify(msg: Option<Payload>, ourId: UserId, ourSlug: string): (r: Route)
    ensures r == Unsupported <==> msg.None?
    ensures msg.Some? && (msg.value.messageType == "control" || msg.value.senderId == ourId) ==> r == Ignored
  {
    match msg
    case None => Unsupported
    case Some(m) =>
      if m.messageType == "control" || m.senderId == ourId then Ignored
      else if Mentioned(m, ourId, ourSlug) then Command
      else Translate
  }

  /** A message is answered as a command exactly when it is a non-control
      message from someone else that addresses the bot, and translated
      exactly when it is such a message that does not. */
  lemma ClassifySpec(m: Payload, ourId: UserId, ourSlug: string)
    ensures var live := m.messageType != "control" && m.senderId != ourId;
            && (Classify(Some(m), ourId, ourSlug) == Command <==> live && Mentioned(m, ourId, ourSlug))
            && (Classify(Some(m), ourId, ourSlug) == Translate <==> live && !Mentioned(m, ourId, ourSlug))
  {
  }

  /** Text that starts with the bot's `@tag` followed by whitespace (or
      nothing) addresses the bot, whatever else the message says. */
  lemma LeadingTagAddresses(m: Payload, ourId: UserId, ourSlug: string, run: string, rest: string)
    requires NoSpace(ourSlug) && AllSpace(run) && (run == [] ==> rest == [])
    requires m.text == "@" + ourSlug + run + rest
    ensures Mentioned(m, ourId, ourSlug)
  {
    var tag := "@" + ourSlug;
    assert NoSpace(tag) by {
      assert forall i :: 1 <= i < |tag| ==> tag[i] == ourSlug[i - 1];
    }
    if run == [] {
      assert m.text == tag;
      WordsOfWord(tag);
    } else {
      assert m.text == tag + (run + rest);
      FirstSpaceOf(tag, run + rest);
    }
  }

  // ------------------------------------------------------ respondToCommand

  /** Token 1 of the whitespace-free tokens: the command word. */
  function CommandWord(text: string): (r: Option<string>)
    ensures r.Some? <==> |Words(text)| > 1
    ensures r.Some? ==> NoSpace(r.value)
  {
    var w := Words(text);
    if |w| > 1 then Some(w[1]) else None
  }

  /** Token 2 of the whitespace-free tokens: the command's argument. */
  function CommandArgument(text: string): (r: Option<string>)
    ensures r.Some? <==> |Words(text)| > 2
    ensures r.Some? ==> NoSpace(r.value)
  {
    var w := Words(text);
    if |w| > 2 then Some(w[2]) else None
  }

  /** "@bot language french", with any whitespace runs between the words:
      the command and the argument are the second and the third word. */
  lemma CommandTokens(mention: string, r1: string, cmd: string, r2: string, arg: string)
    requires NoSpace(mention) && NoSpace(cmd) && NoSpace(arg)
    requires cmd != [] && arg != []
    requires r1 != [] && AllSpace(r1) && r2 != [] && AllSpace(r2)
    ensures CommandWord(mention + r1 + cmd + r2 + arg) == Some(cmd)
    ensures CommandArgument(mention + r1 + cmd + r2 + arg) == Some(arg)
  {
    ThreeWords(mention, r1, cmd, r2, arg);
  }

  /** "@bot help" carries no argument. */
  lemma TwoTokens(mention: string, r1: string, cmd: string)
    requires NoSpace(mention) && NoSpace(cmd) && cmd != []
    requires r1 != [] && AllSpace(r1)
    ensures CommandWord(mention + r1 + cmd) == Some(cmd)
    ensures CommandArgument(mention + r1 + cmd) == None
  {
    WordsOfWord(cmd);
    WordsCons(mention, r1, cmd);
  }

  const HELP_REPLY: string :=
    "\n                Command list:\n\n                help - lists my commands\n\n"
    + "                language [language] - sets your preferred language to the specified language"

  /** The confirmation sent, after translation into `lang`, by the language command. */
  function LanguageSetReply(lang: string): string {
    "Okay. I have set your preferred language to " + lang
  }

  // ------------------------------------------------------ setSenderLanguage

  /** `toUpperCase` of one character, for the ASCII letters. */
  function UpperChar(c: char): (u: char)
    ensures 'a' <= c <= 'z' ==> 'A' <= u <= 'Z' && u as int == c as int - 32
    ensures !('a' <= c <= 'z') ==> u == c
  {
    if 'a' <= c <= 'z' then (c as int - 32) as char else c
  }

  /** `s.charAt(0).toUpperCase() + s.slice(1)`. */
  function Capitalize(s: string): (r: string)
    ensures |r| == |s|
    ensures s != [] ==> r[0] == UpperChar(s[0]) && r[1..] == s[1..]
  {
    if s == [] then [] else [UpperChar(s[0])] + s[1..]
  }

  /** The value `setSenderLanguage` stores: an argument of more than three
      characters is taken for a language name, capitalised and converted by
      `isoConv`; a shorter one is kept as given. */
  function NormalizeLanguage(raw: string, isoConv: string -> string): (l: string)
    ensures |raw| <= 3 ==> l == raw
    ensures |raw| > 3 ==> l == isoConv([UpperChar(raw[0])] + raw[1..])
  {
    if |raw| > 3 then isoConv(Capitalize(raw)) else raw
  }

  // ------------------------------------------------------ translateByUser

  /** The stored preference of a user; the empty string (a falsy value)
      stands for no preference. */
  function Preference(prefs: map<UserId, string>, id: UserId): string {
    if id in prefs then prefs[id] else ""
  }

  /** The `Set` of truthy preferences of `users`, in insertion order. */
  function DistinctLanguages(users: seq<User>, prefs: map<UserId, string>): (r: seq<string>)
    ensures forall i, j :: 0 <= i < j < |r| ==> r[i] != r[j]
    ensures forall l :: l in r <==> l != "" && exists u :: u in users && Preference(prefs, u.id) == l
  {
    if users == [] then []
    else
      var init := users[..|users| - 1];
      var last := users[|users| - 1];
      var d := DistinctLanguages(init, prefs);
      var l := Preference(prefs, last.id);
      assert forall u :: u in users <==> u in init || u == last by {
        assert users == init + [last];
      }
      if l == "" || l in d then d else d + [l]
  }

  /** A translation request: the text and the target language. */
  datatype TranslationRequest = TranslationRequest(text: string, target: string)

  /** An outgoing message as handed to the sender. */
  datatype Outgoing = Outgoing(
    distribution: Distribution,
    threadTitle: Option<string>,
    threadId: string,
    messageRef: Option<string>,
    text: string)

  /** A reply in the conversation of the message it answers. */
  function Reply(dist: Distribution, threadId: string, msgId: string, text: string): (o: Outgoing)
    ensures o.distribution == dist && o.threadId == threadId && o.text == text
    ensures o.threadTitle == None && o.messageRef == Some(msgId)
  {
    Outgoing(dist, None, threadId, Some(msgId), text)
  }

  /** One translation request of `text` per language, in order. */
  function Requests(langs: seq<string>, text: string): (r: seq<TranslationRequest>)
    ensures |r| == |langs|
    ensures forall k :: 0 <= k < |r| ==> r[k] == TranslationRequest(text, langs[k])
  {
    seq(|langs|, k requires 0 <= k < |langs| => TranslationRequest(text, langs[k]))
  }

  /** The translation differs from the original once both are trimmed. */
  predicate Worthwhile(text: string, translation: string) {
    Trim(translation) != Trim(text)
  }

  /** The replies of the fan-out, language by language: the untrimmed
      translation when it is worth sending, nothing otherwise. */
  function FanOut(langs: seq<string>, text: string, translator: (string, string) -> string,
                  dist: Distribution, threadId: string, msgId: string): (r: seq<Outgoing>)
    ensures |r| <= |langs|
  {
    if langs == [] then []
    else
      var prev := FanOut(langs[..|langs| - 1], text, translator, dist, threadId, msgId);
      var tr := translator(text, langs[|langs| - 1]);
      if Worthwhile(text, tr) then prev + [Reply(dist, threadId, msgId, tr)] else prev
  }

  /** One more language adds at most its own reply at the end. */
  lemma FanOutStep(langs: seq<string>, k: nat, text: string, translator: (string, string) -> string,
                   dist: Distribution, threadId: string, msgId: string)
    requires k < |langs|
    ensures var tr := translator(text, langs[k]);
            FanOut(langs[..k + 1], text, translator, dist, threadId, msgId)
            == FanOut(langs[..k], text, translator, dist, threadId, msgId)
               + (if Worthwhile(text, tr) then [Reply(dist, threadId, msgId, tr)] else [])
  {
    assert langs[..k + 1][..k] == langs[..k];
  }

  lemma RequestsStep(langs: seq<string>, k: nat, text: string)
    requires k < |langs|
    ensures Requests(langs[..k + 1], text) == Requests(langs[..k], text) + [TranslationRequest(text, langs[k])]
  {
  }

  /** The translations of `text` into each language, in order. */
  function Translations(langs: seq<string>, text: string, translator: (string, string) -> string): (r: seq<string>)
    ensures |r| == |langs|
    ensures forall k :: 0 <= k < |r| ==> r[k] == translator(text, langs[k])
  {
    seq(|langs|, k requires 0 <= k < |langs| => translator(text, langs[k]))
  }

  /** A reply goes out for language `l` exactly when its translation trims
      differently from the text; every reply goes to the whole distribution,
      in the thread of the message, and carries an untrimmed translation. */
  lemma {:induction false} FanOutSpec(langs: seq<string>, text: string, translator: (string, string) -> string,
                                      dist: Distribution, threadId: string, msgId: string)
    ensures var r := FanOut(langs, text, translator, dist, threadId, msgId);
            forall o :: o in r ==>
              && o == Reply(dist, threadId, msgId, o.text)
              && o.text in Translations(langs, text, translator)
              && Worthwhile(text, o.text)
    ensures var r := FanOut(langs, text, translator, dist, threadId, msgId);
            forall l :: l in langs && Worthwhile(text, translator(text, l)) ==>
              Reply(dist, threadId, msgId, translator(text, l)) in r
  {
    if langs != [] {
      var init, last := langs[..|langs| - 1], langs[|langs| - 1];
      FanOutSpec(init, text, translator, dist, threadId, msgId);
      assert langs == init + [last];
      var ts := Translations(langs, text, translator);
      var ts' := Translations(init, text, translator);
      assert ts == ts' + [translator(text, last)];
    }
  }

  /** A reply that merely echoes the text (up to surrounding whitespace) is
      never sent, in particular for the language the text is already in. */
  lemma {:induction false} NoEcho(langs: seq<string>, text: string, translator: (string, string) -> string,
                                  dist: Distribution, threadId: string, msgId: string)
    requires forall l :: l in langs ==> Trim(translator(text, l)) == Trim(text)
    ensures FanOut(langs, text, translator, dist, threadId, msgId) == []
  {
    if langs != [] {
      var init := langs[..|langs| - 1];
      assert forall l :: l in init ==> l in langs;
      NoEcho(init, text, translator, dist, threadId, msgId);
    }
  }

  /** Two recipients preferring French and one preferring German: one
      request per language, in the order the preferences were met. */
  lemma TwoFrenchOneGerman(a: User, b: User, c: User)
    requires a.id != b.id && b.id != c.id && a.id != c.id
    ensures var prefs := map[a.id := "fr", b.id := "fr", c.id := "de"];
            DistinctLanguages([a, b, c], prefs) == ["fr", "de"]
  {
    var prefs := map[a.id := "fr", b.id := "fr", c.id := "de"];
    assert [a, b, c][..2] == [a, b];
    assert [a, b][..1] == [a];
    assert [a][..0] == [];
    assert DistinctLanguages([a], prefs) == ["fr"];
    assert DistinctLanguages([a, b], prefs) == ["fr"];
  }
}
