# ForstaBot translation and login bot, modelled in Dafny

`ForstaBot` is a chat bot on the Forsta messaging network. The model covers the following behaviour:

- **Message routing.** For each incoming envelope the bot picks the first version-1 payload. It drops control messages and its own messages. Messages that address the bot, by an `@mention` or by its `@tag` as the first word, are answered as commands (`language <name>`, `help`). Every other message is translated: once into each distinct language preferred by its recipients, and a reply is sent whenever the translation differs from the original after trimming.
- **Administrator login.** A login code is two words, valid for one minute. It is sent in a "Message Bot Login" conversation to a user who is already an administrator. When the code is validated, expired codes are purged and a correct code is consumed. A wrong code bumps a failure counter, and from the tenth failure on every failure raises a security alert.
- **Administrator list.** Administrators are added and removed, and each change is announced. Every announcement is a notice in a "Compliance Alerts" conversation. The notice goes to all administrators. It carries an attribution to the acting user and, when asked for, the current list of administrators. Any `<<userId>>` placeholder in the note is replaced by that user's label, `@tag:org (Full Name)`.

The project has eight modules, one per file:

- `Results`: the Option and Result types, and the failure kinds (an HTTP-style error, or a crash).
- `Text`: JavaScript's `trim`, `join`, whitespace splitting and decimal rendering.
- `Users`: directory records, tags, names and labels, and the `getUsers`/`find` lookups.
- `Admins`: the stored list of administrator ids, with `push`, `indexOf` and `splice`.
- `Challenges`: pending codes, the purge of expired codes, and the failure counter.
- `Notices`: the composition of a broadcast notice and the placeholder replacement.
- `Routing`: payload selection, classification, command tokens, and the translation fan-out.
- `Bot`: the class `ForstaBot`. Its fields are the values the bot keeps in storage. It also has an outbox that stands for the message sender, and a log of translation requests.

The following are parameters of the model:

- the directory, as a map from ids to records;
- tag resolution;
- the translation service;
- the ISO language-name converter;
- the clock, as integer milliseconds;
- the two code words;
- the fresh thread ids;
- the relative-time wording of the alert.

Some behaviour throws in the source: a placeholder for an id that is not among the looked-up users (`fqLabel(undefined)`), and an `adminIds` entry that was never stored, read without a default. Both are modelled as the `Crash` failure, and each method states what state a crash leaves behind. For example, a crashing REMOVING notice leaves the removal unstored.

The model keeps these behaviours of the code:

- A placeholder for a user who is not among the looked-up users crashes. The replacement callback calls `fqLabel` on `undefined` (server/forsta_bot.js:334-337).
- A crash while composing a notice propagates to the operation that triggered it, because every `broadcastNotice` call is awaited (server/forsta_bot.js:202, 299, 357, 371).
- The security alert fires on every failure whose count is 10 or more, not only on the tenth (server/forsta_bot.js:201).
- The administrator ids are an ordered list. An id is appended with `push` and removed with `splice` at its first index (server/forsta_bot.js:353-355, 365-370).

## Model

| member | source | states |
|---|---|---|
| Text.Trim | server/forsta_bot.js:157 | the result has no whitespace at either end (JavaScript's `\s` class) and is no longer than the input |
| Text.TrimFixed | server/forsta_bot.js:157 | trimming leaves a string unchanged exactly when it has no whitespace at either end |
| Text.TrimIdempotent | server/forsta_bot.js:157 | trimming twice is the same as trimming once |
| Text.TrimRemovesOnlySpace | server/forsta_bot.js:157 | the input is a whitespace run, then the trimmed text, then a whitespace run |
| Text.TrimAvoids | server/forsta_bot.js:66 | trimming brings in no character that was not in the input |
| Text.JoinTrimmed | server/forsta_bot.js:66 | joining non-empty trimmed parts gives a trimmed string; it is empty only for no parts, and starts and ends with the first and last parts' characters |
| Text.JoinAvoids | server/forsta_bot.js:66 | a character that is in neither the parts nor the separator is not in the join |
| Text.Words | server/forsta_bot.js:106 | splitting at whitespace runs yields at least one piece, and no piece contains whitespace |
| Text.WordsOfWord | server/forsta_bot.js:106 | a string without whitespace is a single piece |
| Text.WordsCons | server/forsta_bot.js:106 | a word, then a whitespace run, then a rest not starting with whitespace, splits into the word followed by the rest's pieces |
| Text.WordsInteriorNonEmpty | server/forsta_bot.js:106 | only the first and the last piece can be empty |
| Text.ThreeWords | server/forsta_bot.js:106-110 | "w0 w1 w2" separated by any whitespace runs splits into exactly [w0, w1, w2] |
| Text.WordsLoseOnlySpace | server/forsta_bot.js:106 | the pieces put back together are the input with its whitespace removed |
| Text.Decimal | server/forsta_bot.js:203 | the count is rendered as at least one digit, with no leading zero |
| Text.DecimalRoundTrip | server/forsta_bot.js:203 | reading the rendered digits back gives the count |
| Users.AsTag | server/forsta_bot.js:255 | the result starts with '@'; an argument that already starts with '@' is kept, otherwise '@' is prefixed to it |
| Users.FqTag | server/forsta_bot.js:61-63 | `@tag:org`; it is the prefix of the label and the name of the user in a distribution expression (see Notices.PlainNoticeText) |
| Users.FqName | server/forsta_bot.js:65-67 | the name parts, trimmed, blanks dropped, joined by a space; its meaning is proved by Users.FqNameOrder and Users.FqNameTrimmed |
| Users.FqLabel | server/forsta_bot.js:69-71 | the tag followed by the full name in parentheses; Users.LabelAvoids and Notices.LabelInert state what can appear in it |
| Users.NameParts | server/forsta_bot.js:66 | the kept name parts are non-empty and trimmed, and there are no more of them than the input parts; their contents and order are proved by Users.NamePartsMembers and Users.NamePartsAppend |
| Users.NamePartsMembers | server/forsta_bot.js:66 | the kept parts are exactly the input parts that are not blank, each one trimmed |
| Users.NamePartsAppend | server/forsta_bot.js:66 | the parts kept from a concatenation are the parts kept from each side, in order, so input order is kept |
| Users.FqNameOrder | server/forsta_bot.js:65-67 | the full name is the trimmed first, middle and last names, the blank ones left out, in that order, joined by single spaces |
| Users.LabelAvoids | server/forsta_bot.js:61-71 | a character that is in none of the slugs and names, and is not part of the label's `@`, `:`, ` (` and `)`, is not in the label |
| Users.FqNameTrimmed | server/forsta_bot.js:65-67 | the full name is trimmed, and it is empty exactly when the first, middle and last names are all blank |
| Users.NamePartsEmpty | server/forsta_bot.js:66 | no part survives exactly when every part trims to empty |
| Users.GetUsersAppend | server/forsta_bot.js:323 | looking up a concatenation of ids gives the concatenation of the lookups |
| Users.GetUsersExact | server/forsta_bot.js:306 | against a keyed directory, the looked-up users are exactly the records of the requested ids that the directory knows |
| Users.GetUsers | server/forsta_bot.js:306 | the records of the requested ids that the directory knows, in the order requested; no more records than ids (see Users.GetUsersExact and Users.GetUsersAppend) |
| Users.FindUser | server/forsta_bot.js:324 | a user is found exactly when some user carries the id, and the user found is a member with that id |
| Users.FindUserFirst | server/forsta_bot.js:324 | the user found is the first one that carries the id, as `Array.prototype.find` returns |
| Admins.IndexOf | server/forsta_bot.js:365-367 | -1 exactly when the id is absent; otherwise the position of its first occurrence |
| Admins.WithAdmin | server/forsta_bot.js:353-356 | the list after `push` of an absent id; its properties are proved by Admins.WithAdminSpec |
| Admins.WithoutAdmin | server/forsta_bot.js:365-370 | the list after `splice` at `indexOf`; its properties are proved by Admins.WithoutAdminSpec and Admins.WithoutAdminUnique |
| Admins.WithAdminSpec | server/forsta_bot.js:353-356 | adding keeps the old ids in order as a prefix, makes the new id a member, adds nothing else, is a no-op for a present id, and introduces no duplicate |
| Admins.WithoutAdminSpec | server/forsta_bot.js:365-370 | removing deletes exactly one occurrence (the first) and keeps the other ids in order; the multiset loses one copy of the id |
| Admins.WithoutAdminUnique | server/forsta_bot.js:363-372 | on a list without duplicates the removed id is gone afterwards, and no duplicate appears |
| Admins.AddThenRemove | server/forsta_bot.js:347-375 | removing an id that was just added restores the previous list |
| Challenges.RemoveExpiredAuthCodes | server/forsta_bot.js:241-252 | exactly the entries whose expiry is not before now are kept, unchanged |
| Challenges.PurgeIdempotent | server/forsta_bot.js:241-252 | the purge never adds or alters an entry, and a second purge at the same instant changes nothing |
| Challenges.PurgeLater | server/forsta_bot.js:285 | a purge at a later instant subsumes an earlier one |
| Challenges.CodeLifetime | server/forsta_bot.js:234-239 | a code issued for m minutes survives every purge up to and including its expiry, and carries "adjective noun"; no later purge keeps it |
| Challenges.IssueTouchesOnlyTarget | server/forsta_bot.js:272-274 | issuing a code for one user leaves every other user's entry as it was |
| Challenges.ConsumedIsGone | server/forsta_bot.js:285-297 | a code that was consumed after a purge is absent from every later purge |
| Challenges.Bumped | server/forsta_bot.js:198-199 | a failure raises the count by one and keeps `since`; an unset counter starts at 1 and now |
| Challenges.BumpedTimesCount | server/forsta_bot.js:197-208 | k failures raise the count by exactly k and keep `since` |
| Challenges.AlertsCount | server/forsta_bot.js:201-205 | of k failures after a reset, none raises an alert when k < 10, and k - 9 do otherwise |
| Challenges.GenAuthCode | server/forsta_bot.js:234-239 | the code is "adjective noun" and expires the given number of minutes after now; Challenges.CodeLifetime states how long it stays valid |
| Challenges.Unexpired | server/forsta_bot.js:244-248 | the entries whose expiry is not before now; Challenges.RemoveExpiredAuthCodes computes it, and Challenges.PurgeIdempotent and Challenges.PurgeLater state its properties |
| Challenges.AlertNote | server/forsta_bot.js:203 | "SECURITY ALERT!", the count in decimal (Text.DecimalRoundTrip) and the relative time of the last successful login |
| Challenges.CodeText | server/forsta_bot.js:270 | the message carrying the code words and the one-minute validity |
| Notices.RecipientsSpec | server/forsta_bot.js:317-322 | the recipients are the stored ids in order, followed by the actor when the actor is given and not stored |
| Notices.Recipients | server/forsta_bot.js:317-322 | the stored ids, plus the actor when it is given and not stored; Notices.RecipientsSpec states this |
| Notices.Listed | server/forsta_bot.js:329 | the listing shows every looked-up user except an actor who was added only for this notice |
| Notices.ListedAppend | server/forsta_bot.js:329 | filtering a concatenation gives the concatenation of the filtered parts |
| Notices.ListedNone | server/forsta_bot.js:329 | when no user is the actor, the listing keeps all users |
| Notices.ListingIsStoredAdmins | server/forsta_bot.js:317-329 | the listing is exactly the stored administrators that the directory knows |
| Notices.ListedKeepsAll | server/forsta_bot.js:329 | when the actor was not added, the listing keeps all users |
| Notices.PlaceholderAt | server/forsta_bot.js:334 | a match at the start is `<<id>>` with no '>' in the id |
| Notices.SubstitutePlain | server/forsta_bot.js:334-337 | text that cannot start a placeholder passes through the replacement unchanged, ahead of the rest |
| Notices.SubstitutePlaceholder | server/forsta_bot.js:334-337 | a placeholder naming a looked-up user becomes that user's label |
| Notices.SubstituteUnknown | server/forsta_bot.js:334-337 | a placeholder naming anyone else makes the replacement crash |
| Notices.InertUnchanged | server/forsta_bot.js:334-337 | text without placeholders is its own replacement |
| Notices.SubstituteOne | server/forsta_bot.js:334-337 | inert text around a single known placeholder is the text with the label in its place |
| Notices.Substitute | server/forsta_bot.js:334-337 | `replace(/<<([^>]*)>>/g, …)` with the labels of the looked-up users; Notices.SubstitutePlain, Notices.SubstitutePlaceholder and Notices.SubstituteUnknown state its three cases |
| Notices.AttributionText | server/forsta_bot.js:324-325 | the attribution is empty without an actor; otherwise it is "Performed by" and the actor's label, or "<unknown>" when the directory does not know the actor |
| Notices.Attribution | server/forsta_bot.js:324-325 | "Performed by" and the actor's label, or "<unknown>"; empty without an actor; Notices.AttributionText states its value |
| Notices.Listing | server/forsta_bot.js:329 | "Current authorized users:" and the listed labels, one per line, when the listing is asked for; Notices.ListingIsStoredAdmins states who is listed |
| Notices.NoticeTail | server/forsta_bot.js:331-333 | after the note come the attribution and the listing of the stored administrators, and that tail cannot start a placeholder |
| Notices.PlainNoticeText | server/forsta_bot.js:316-337 | a note without placeholders goes to the tags of all recipients joined by " + ", with the note, the attribution and the listing as its text |
| Notices.ActorFound | server/forsta_bot.js:324 | the actor's record is found among the recipients exactly when the directory knows the actor |
| Notices.PlaceholderNoticeText | server/forsta_bot.js:316-337 | a note "pre <<id>> post" about a known recipient renders as pre, the label, post, attribution and listing |
| Notices.PlaceholderFound | server/forsta_bot.js:335 | a recipient that the directory knows is found by its id, with its own record |
| Notices.ComposeNotice | server/forsta_bot.js:316-337 | the distribution expression and the text of a notice, or a crash; Notices.PlainNoticeText and Notices.PlaceholderNoticeText give its result |
| Notices.LabelInert | server/forsta_bot.js:334 | the label of a user whose slugs and names contain no '<' cannot start a placeholder |
| Notices.DirectoryInert | server/forsta_bot.js:323-337 | over a directory whose records contain no '<', every looked-up label is inert, which is what the notice-text lemmas require |
| Routing.FirstVersionOneAt | server/forsta_bot.js:176-181 | the position of the first version-1 payload, or the length when there is none |
| Routing.GetMsg | server/forsta_bot.js:172-183 | no message exactly when no payload has version 1; otherwise the first payload that does |
| Routing.Selected | server/forsta_bot.js:176-182 | the first payload with version 1, if there is one; Routing.GetMsg computes it |
| Routing.Classify | server/forsta_bot.js:73-101 | "unsupported" exactly when there is no message; control messages and the bot's own messages are ignored |
| Routing.Mentioned | server/forsta_bot.js:92-94 | the bot's id is among the mentions, or the first piece of the text is the bot's `@tag`; Routing.LeadingTagAddresses states when text addresses the bot |
| Routing.ClassifySpec | server/forsta_bot.js:79-100 | a live message is a command exactly when it addresses the bot, and is translated exactly when it does not |
| Routing.LeadingTagAddresses | server/forsta_bot.js:92-94 | text that starts with the bot's @tag, followed by whitespace or by nothing, addresses the bot |
| Routing.CommandWord | server/forsta_bot.js:106-107 | the command exists exactly when there are at least two pieces, and it contains no whitespace |
| Routing.CommandArgument | server/forsta_bot.js:110 | the argument exists exactly when there are at least three pieces, and it contains no whitespace |
| Routing.CommandTokens | server/forsta_bot.js:106-110 | in "@bot cmd arg" the command is cmd and the argument is arg |
| Routing.TwoTokens | server/forsta_bot.js:106-110 | in "@bot cmd" the command is cmd and there is no argument |
| Routing.UpperChar | server/forsta_bot.js:139 | ASCII lower-case letters go to their upper case; every other character is unchanged |
| Routing.Capitalize | server/forsta_bot.js:139 | only the first character is upper-cased, and the length is kept |
| Routing.NormalizeLanguage | server/forsta_bot.js:137-141 | arguments of up to three characters are kept; longer ones are capitalised and passed through the ISO converter |
| Routing.DistinctLanguages | server/forsta_bot.js:147-154 | the languages have no duplicates and are exactly the non-empty preferences of the recipients |
| Routing.FanOut | server/forsta_bot.js:155-169 | the replies sent for the languages; no more replies than languages; Routing.FanOutSpec states which replies they are |
| Routing.FanOutSpec | server/forsta_bot.js:155-169 | each reply sent is a worthwhile translation of the text into one of the languages, and each worthwhile translation is sent |
| Routing.NoEcho | server/forsta_bot.js:157-160 | when every translation trims equal to the text, nothing is sent |
| Routing.TwoFrenchOneGerman | server/forsta_bot.js:148-154 | recipients preferring fr, fr and de give one request each for fr and de, in that order |
| Bot.AdminNoticeText | server/forsta_bot.js:316-337 | a note naming a stored administrator by placeholder renders that administrator's label, and the administrator is in the listing |
| Bot.AddedNoticeText | server/forsta_bot.js:347-357 | the ADDED notice names the new administrator by label and lists every stored administrator, including the new one |
| Bot.RemovingNoticeText | server/forsta_bot.js:363-371 | the REMOVING notice names the removed administrator and still lists them |
| Bot.ForstaBot.constructor | server/forsta_bot.js:18-37 | the bot starts with its identity, its collaborators and the given stored administrators, codes, counter, preferences and thread ids, with nothing sent yet |
| Bot.ForstaBot.GetSoloAuthThreadId | server/forsta_bot.js:214-222 | the stored compliance thread id, or the fresh id, which is then stored |
| Bot.ForstaBot.GetGroupAuthThreadId | server/forsta_bot.js:224-232 | the stored login thread id, or the fresh id, which is then stored |
| Bot.ForstaBot.BroadcastNotice | server/forsta_bot.js:316-345 | it succeeds exactly when the notice can be composed; the composed notice is then sent to the resolved tag expression in the compliance thread, and otherwise nothing is sent |
| Bot.ForstaBot.IncrementAuthFailCount | server/forsta_bot.js:197-208 | the counter goes up by one; at 10 and above an alert with the count is broadcast first, and if that broadcast crashes the counter is not written |
| Bot.ForstaBot.ResetAuthFailCount | server/forsta_bot.js:210-212 | the counter becomes zero since now |
| Bot.ForstaBot.SendAuthCode | server/forsta_bot.js:254-280 | 400 unless the tag names one user with no warnings, a crash while the admin ids are unset, and 403 for a user who is not an administrator; otherwise a one-minute code is stored for the user, overwriting any earlier one, and sent in the login thread, and the result is the user's id; errors change nothing |
| Bot.ForstaBot.ValidateAuthCode | server/forsta_bot.js:282-302 | 403 with no change when no live code exists; 403 with the code kept and a failure counted for a wrong code; for the right code, the purged map without the user is stored, a LOGIN notice attributed to the user and without the listing is sent, and the counter is reset |
| Bot.ForstaBot.Administrators | server/forsta_bot.js:304-314 | the entries are exactly the stored ids known to the directory, each with that user's label |
| Bot.ForstaBot.AddAdministrator | server/forsta_bot.js:347-361 | 400 for a tag that does not name a single user; otherwise the id is added if absent and stored, and then the ADDED notice is sent against the new list, returning the refreshed list |
| Bot.ForstaBot.RemoveAdministrator | server/forsta_bot.js:363-375 | 400 for an id that is not stored; otherwise the REMOVING notice is sent against the old list, and only then is the list without the id stored |
| Bot.ForstaBot.SetSenderLanguage | server/forsta_bot.js:137-144 | the normalised language is stored as the sender's preference and returned |
| Bot.ForstaBot.RespondToCommand | server/forsta_bot.js:103-135 | "language x" stores the normalised x and replies with the confirmation translated into it; "help" replies with the command list; anything else sends nothing |
| Bot.ForstaBot.CollectLanguages | server/forsta_bot.js:147-154 | the loop collects exactly the distinct preferred languages, in first-seen order |
| Bot.ForstaBot.SendTranslations | server/forsta_bot.js:155-169 | one translation request per language, and a reply for each worthwhile translation |
| Bot.ForstaBot.TranslateByUser | server/forsta_bot.js:146-170 | the text is translated into each distinct language of the recipients, and the worthwhile translations are sent |
| Bot.ForstaBot.OnMessage | server/forsta_bot.js:73-101 | the route taken is the classification of the selected payload: unsupported and ignored messages change nothing, commands are answered, and everything else is fanned out |

## Left out

- Start-up, stop, restart, key-change and error handlers (lines 18-59) are not modelled. They are transport lifecycle. The constructor takes in their place the bot's id, a directory snapshot and the values already in storage.
- Parsing the JSON body of an event (line 174) is not modelled. `GetMsg` takes the already parsed list of payloads.
- The 60-second cache in front of `getUsers` and `resolveTags` is not modelled. Both are fixed functions of one directory snapshot.
- Concurrency is not modelled. This covers the un-awaited `send` and `storage.set` calls, the half-second throttle after a wrong code, and the un-awaited `incrementAuthFailCount`. The `forEach` over languages is modelled as sequential, in insertion order.
- `forgetStaleNotificationThreads` is not modelled. It refers to a `notificationThread` field that nothing in the class sets.
- Storage failures and network failures are not modelled.
- The random code words, the fresh uuids, the clock and the relative rendering of the counter's `since` (the `fromNow` wording) are parameters. The model does not generate them.
- Bot.ForstaBot.RespondToCommand: "language" without an argument throws in the source. The model treats it as a command that changes nothing.
- Routing.UpperChar: upper-cases ASCII letters only, because JavaScript's full Unicode case mapping is not modelled.
- Routing.NormalizeLanguage: the ISO converter is a total function returning a string. The source's converter may return `undefined` for an unknown name, and the model does not capture that.
- Routing.NormalizeLanguage: string lengths count Dafny characters, not UTF-16 code units. This matters only for the `length > 3` test on a language argument with characters outside the Basic Multilingual Plane.
- Challenges.GenAuthCode: dates are integer milliseconds. `setMinutes` arithmetic across time-zone changes is not modelled.
