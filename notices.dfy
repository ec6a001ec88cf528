/** Composition of a broadcast notice: who receives it, the distribution
    expression, and the text (note, attribution, listing of the authorized
    users, then `<<id>>` placeholders replaced by labels). */
module Notices {
  import opened Results
  import opened Text
  import opened Users

  /** The actor is given (a non-empty id) and is not a stored admin, so it is
      pushed onto the recipients for this notice only (the `added` flag). */
  predicate ActorAdded(admins: seq<UserId>, actor: UserId) {
    actor != "" && actor !in admins
  }

  /** The ids whose users receive the notice. */
  function Recipients(admins: seq<UserId>, actor: UserId): seq<UserId> {
    if ActorAdded(admins, actor) then admins + [actor] else admins
  }

  /** The recipients are the stored admins, in order, plus a given actor
      that is not one of them; no other id is added, and no duplicate. */
  lemma RecipientsSpec(admins: seq<UserId>, actor: UserId)
    ensures var r := Recipients(admins, actor);
            && r[..|admins|] == admins
            && (actor != "" ==> actor in r)
            && (forall x :: x in r <==> x in admins || (x == actor && actor != ""))
            && |r| == |admins| + (if ActorAdded(admins, actor) then 1 else 0)
  {
    var r := Recipients(admins, actor);
    assert r[..|admins|] == admins;
    if ActorAdded(admins, actor) {
      assert r[|admins|] == actor;
      forall x | x in r ensures x in admins || x == actor {
        var k :| 0 <= k < |r| && r[k] == x;
        if k < |admins| { assert admins[k] == x; }
      }
    }
  }

  /** The users listed under "Current authorized users": every looked-up
      user except an actor that was added for this notice only. */
  function Listed(users: seq<User>, added: bool, actor: UserId): (r: seq<User>)
    ensures |r| <= |users|
    ensures forall u :: u in r <==> u in users && !(added && u.id == actor)
  {
    if users == [] then []
    else if added && users[0].id == actor then Listed(users[1..], added, actor)
    else [users[0]] + Listed(users[1..], added, actor)
  }

  lemma {:induction false} ListedAppend(a: seq<User>, b: seq<User>, added: bool, actor: UserId)
    ensures Listed(a + b, added, actor) == Listed(a, added, actor) + Listed(b, added, actor)
  {
    if a != [] {
      assert (a + b)[1..] == a[1..] + b;
      ListedAppend(a[1..], b, added, actor);
    } else {
      assert a + b == b;
    }
  }

  lemma {:induction false} ListedNone(users: seq<User>, actor: UserId)
    requires forall u :: u in users ==> u.id != actor
    ensures Listed(users, true, actor) == users
  {
    if users != [] {
      ListedNone(users[1..], actor);
    }
  }

  /** The listing shows exactly the stored admins that the directory knows,
      in stored order: a transiently added actor is left out of it. */
  lemma ListingIsStoredAdmins(dir: Directory, admins: seq<UserId>, actor: UserId)
    requires Keyed(dir)
    ensures var added := ActorAdded(admins, actor);
            Listed(GetUsers(dir, Recipients(admins, actor)), added, actor) == GetUsers(dir, admins)
  {
    if ActorAdded(admins, actor) {
      GetUsersAppend(dir, admins, [actor]);
      ListedAppend(GetUsers(dir, admins), GetUsers(dir, [actor]), true, actor);
      GetUsersExact(dir, admins);
      ListedNone(GetUsers(dir, admins), actor);
      assert GetUsers(dir, [actor]) == (if actor in dir then [dir[actor]] else []);
    } else {
      ListedKeepsAll(GetUsers(dir, admins), actor);
    }
  }

  lemma {:induction false} ListedKeepsAll(users: seq<User>, actor: UserId)
    ensures Listed(users, false, actor) == users
  {
    if users != [] { ListedKeepsAll(users[1..], actor); }
  }

  // ------------------------------------------------- placeholder replacement

  /** Length of the run of characters other than '>' that begins `s`. */
  function OpenRun(s: string): (n: nat)
    ensures n <= |s| && '>' !in s[..n]
    ensures n < |s| ==> s[n] == '>'
  {
    if s != [] && s[0] != '>' then
      var n := 1 + OpenRun(s[1..]);
      assert s[..n] == [s[0]] + s[1..][..n - 1];
      n
    else 0
  }

  /** The id of the match of `/<<([^>]*)>>/` that starts at position 0 of `s`. */
  function PlaceholderAt(s: string): (r: Option<string>)
    ensures r.Some? ==> |r.value| + 4 <= |s| && s[..|r.value| + 4] == "<<" + r.value + ">>"
    ensures r.Some? ==> '>' !in r.value
  {
    if |s| >= 2 && s[0] == '<' && s[1] == '<' then
      var n := OpenRun(s[2..]);
      if n + 4 <= |s| && s[n + 3] == '>' then
        assert s[2..][n] == '>';
        assert s[..n + 4] == "<<" + s[2..n + 2] + ">>";
        Some(s[2..][..n])
      else None
    else None
  }

  /** `s.replace(/<<([^>]*)>>/g, (_, id) => fqLabel(users.find(u => u.id === id)))`:
      `None` when a placeholder names a user that is not in `users`, where
      `fqLabel(undefined)` throws. */
  function Substitute(s: string, users: seq<User>): Option<string>
    decreases |s|
  {
    if s == [] then Some([])
    else
      match PlaceholderAt(s)
      case Some(id) =>
        (match FindUser(users, id)
         case None => None
         case Some(u) => Prefixed(FqLabel(u), Substitute(s[|id| + 4..], users)))
      case None => Prefixed([s[0]], Substitute(s[1..], users))
  }

  /** No placeholder can start inside `s`, even with more text after it:
      every '<' in `s` is followed, inside `s`, by a character other than '<'. */
  predicate Inert(s: string) {
    s == [] || ((s[0] != '<' || (|s| >= 2 && s[1] != '<')) && Inert(s[1..]))
  }

  lemma {:induction false} InertAppend(a: string, b: string)
    requires Inert(a) && Inert(b)
    ensures Inert(a + b)
  {
    if a != [] {
      assert (a + b)[0] == a[0];
      if a[0] == '<' { assert (a + b)[1] == a[1]; }
      assert (a + b)[1..] == a[1..] + b;
      InertAppend(a[1..], b);
    } else {
      assert a + b == b;
    }
  }

  /** Prefixes `a` to a present replacement and propagates a crash. */
  function Prefixed(a: string, r: Option<string>): (p: Option<string>)
    ensures p.Some? <==> r.Some?
    ensures p.Some? ==> p.value == a + r.value
  {
    match r
    case None => None
    case Some(v) => Some(a + v)
  }

  lemma PrefixedTwice(a: string, b: string, r: Option<string>)
    ensures Prefixed(a, Prefixed(b, r)) == Prefixed(a + b, r)
  {
    if r.Some? { assert a + (b + r.value) == a + b + r.value; }
  }

  /** Inert text comes through the replacement unchanged, in front of
      whatever follows it. */
  lemma {:induction false} SubstitutePlain(a: string, b: string, users: seq<User>)
    requires Inert(a)
    ensures Substitute(a + b, users) == Prefixed(a, Substitute(b, users))
    decreases |a|
  {
    if a != [] {
      calc {
        Substitute(a + b, users);
        { NoPlaceholderAtInert(a, b); SubstituteStep(a + b, users); }
        Prefixed([a[0]], Substitute((a + b)[1..], users));
        { assert (a + b)[1..] == a[1..] + b; }
        Prefixed([a[0]], Substitute(a[1..] + b, users));
        { SubstitutePlain(a[1..], b, users); }
        Prefixed([a[0]], Prefixed(a[1..], Substitute(b, users)));
        { PrefixedTwice([a[0]], a[1..], Substitute(b, users)); assert [a[0]] + a[1..] == a; }
        Prefixed(a, Substitute(b, users));
      }
    } else {
      assert a + b == b;
      var r := Substitute(b, users);
      if r.Some? { assert [] + r.value == r.value; }
    }
  }

  /** Outside a placeholder the replacement copies one character. */
  lemma SubstituteStep(s: string, users: seq<User>)
    requires s != [] && PlaceholderAt(s) == None
    ensures Substitute(s, users) == Prefixed([s[0]], Substitute(s[1..], users))
  {
  }

  lemma NoPlaceholderAtInert(a: string, b: string)
    requires Inert(a) && a != []
    ensures PlaceholderAt(a + b) == None && (a + b)[0] == a[0]
  {
    var s := a + b;
    assert s[0] == a[0];
    if a[0] == '<' {
      assert 1 < |a| && a[1] != '<';
      assert s[1] == a[1];
    }
  }

  /** A placeholder naming a known user becomes that user's label. */
  lemma SubstitutePlaceholder(id: string, b: string, users: seq<User>)
    requires '>' !in id
    requires FindUser(users, id).Some?
    ensures Substitute("<<" + id + ">>" + b, users) == Prefixed(FqLabel(FindUser(users, id).value), Substitute(b, users))
  {
    var s := "<<" + id + ">>" + b;
    PlaceholderAtOf(id, b);
    assert s != [];
  }

  /** A placeholder naming a user that is not in `users` makes the whole
      replacement fail. */
  lemma SubstituteUnknown(a: string, id: string, b: string, users: seq<User>)
    requires Inert(a) && '>' !in id
    requires FindUser(users, id).None?
    ensures Substitute(a + "<<" + id + ">>" + b, users) == None
  {
    var s := "<<" + id + ">>" + b;
    assert a + "<<" + id + ">>" + b == a + s;
    SubstitutePlain(a, s, users);
    PlaceholderAtOf(id, b);
    assert s != [];
    assert Substitute(s, users) == None;
  }

  lemma PlaceholderAtOf(id: string, b: string)
    requires '>' !in id
    ensures var s := "<<" + id + ">>" + b;
            PlaceholderAt(s) == Some(id) && s[|id| + 4..] == b
  {
    var s := "<<" + id + ">>" + b;
    assert s[0] == '<' && s[1] == '<';
    assert s[2..] == id + (">>" + b);
    OpenRunOf(id, ">>" + b);
    assert s[|id| + 3] == '>';
    assert s[2..][..|id|] == id;
    assert s[|id| + 4..] == b;
  }

  lemma {:induction false} OpenRunOf(id: string, rest: string)
    requires '>' !in id && rest != [] && rest[0] == '>'
    ensures OpenRun(id + rest) == |id|
  {
    if id != [] {
      assert (id + rest)[1..] == id[1..] + rest;
      OpenRunOf(id[1..], rest);
    } else {
      assert id + rest == rest;
    }
  }

  // --------------------------------------------------------------- notice

  /** What `broadcastNotice` hands to the sender: the tag expression to
      resolve and the message text. */
  datatype Notice = Notice(expression: string, text: string)

  /** "Performed by …" when an actor is given. */
  function Attribution(users: seq<User>, actor: UserId): string {
    if actor == "" then ""
    else
      var found := FindUser(users, actor);
      "\n\nPerformed by " + (if found.Some? then FqLabel(found.value) else "<unknown>")
  }

  /** "Current authorized users: …" when the listing is asked for. */
  function Listing(listed: seq<User>, listAll: bool): string {
    if listAll then "\n\nCurrent authorized users:\n" + Join(Labels(listed), "\n") else ""
  }

  /** The notice for `note`, given the stored admin ids and the directory;
      `None` when the placeholder replacement throws. */
  function ComposeNotice(dir: Directory, admins: seq<UserId>, note: string, actor: UserId, listAll: bool): Option<Notice> {
    var users := GetUsers(dir, Recipients(admins, actor));
    var raw := note + Attribution(users, actor) + Listing(Listed(users, ActorAdded(admins, actor), actor), listAll);
    var text := Substitute(raw, users);
    if text.None? then None else Some(Notice(Join(Tags(users), " + "), text.value))
  }

  /** No label can start a placeholder. */
  predicate InertLabels(users: seq<User>) {
    forall u :: u in users ==> Inert(FqLabel(u))
  }

  lemma {:induction false} JoinInert(parts: seq<string>, sep: string)
    requires Inert(sep)
    requires forall k :: 0 <= k < |parts| ==> Inert(parts[k])
    ensures Inert(Join(parts, sep))
  {
    if |parts| > 1 {
      JoinInert(parts[1..], sep);
      InertAppend(parts[0], sep);
      InertAppend(parts[0] + sep, Join(parts[1..], sep));
    }
  }

  /** Text without '<' is inert. */
  lemma {:induction false} PlainInert(s: string)
    requires '<' !in s
    ensures Inert(s)
  {
    if s != [] {
      assert s[0] in s;
      assert forall c :: c in s[1..] ==> c in s;
      PlainInert(s[1..]);
    }
  }

  /** No '<' in a record's slugs and names. */
  predicate NoAngle(u: User) {
    '<' !in u.tagSlug && '<' !in u.orgSlug
    && '<' !in u.firstName && '<' !in u.middleName && '<' !in u.lastName
  }

  /** The label of a record without '<' cannot start a placeholder. */
  lemma LabelInert(u: User)
    requires NoAngle(u)
    ensures Inert(FqLabel(u))
  {
    LabelAvoids(u, '<');
    PlainInert(FqLabel(u));
  }

  /** Over a directory whose records contain no '<', every lookup has inert
      labels, as the notice lemmas below require. */
  lemma DirectoryInert(dir: Directory, ids: seq<UserId>)
    requires Keyed(dir)
    requires forall id :: id in dir ==> NoAngle(dir[id])
    ensures InertLabels(GetUsers(dir, ids))
  {
    GetUsersExact(dir, ids);
    forall u | u in GetUsers(dir, ids) ensures Inert(FqLabel(u)) {
      LabelInert(u);
    }
  }

  lemma UnknownInert()
    ensures Inert("<unknown>")
  {
    var s := "<unknown>";
    assert s[1..] == "unknown>";
    PlainInert("unknown>");
  }

  lemma AttributionInert(users: seq<User>, actor: UserId)
    requires InertLabels(users)
    ensures Inert(Attribution(users, actor))
  {
    if actor == "" {
      assert Attribution(users, actor) == "";
    } else {
      GivenAttributionInert(users, actor);
    }
  }

  lemma GivenAttributionInert(users: seq<User>, actor: UserId)
    requires InertLabels(users) && actor != ""
    ensures Inert(Attribution(users, actor))
  {
    var found := FindUser(users, actor);
    if found.Some? {
      assert found.value in users;
      InertAfter("\n\nPerformed by ", FqLabel(found.value));
    } else {
      UnknownInert();
      InertAfter("\n\nPerformed by ", "<unknown>");
    }
  }

  lemma InertAfter(plain: string, l: string)
    requires '<' !in plain && Inert(l)
    ensures Inert(plain + l)
  {
    PlainInert(plain);
    InertAppend(plain, l);
  }

  lemma ListingInert(listed: seq<User>, listAll: bool)
    requires InertLabels(listed)
    ensures Inert(Listing(listed, listAll))
  {
    if !listAll {
      assert Listing(listed, listAll) == "";
    } else {
      ListingShownInert(listed);
    }
  }

  lemma ListingShownInert(listed: seq<User>)
    requires InertLabels(listed)
    ensures Inert(Listing(listed, true))
  {
    var labels := Labels(listed);
    assert forall k :: 0 <= k < |labels| ==> labels[k] == FqLabel(listed[k]) && listed[k] in listed;
    PlainInert("\n");
    JoinInert(labels, "\n");
    InertAfter("\n\nCurrent authorized users:\n", Join(labels, "\n"));
    assert Inert("\n\nCurrent authorized users:\n" + Join(labels, "\n"));
  }

  /** When the labels involved cannot start a placeholder, the attribution and
      the listing pass through the replacement unchanged. */
  lemma TailInert(users: seq<User>, added: bool, actor: UserId, listAll: bool)
    requires InertLabels(users)
    ensures Inert(Attribution(users, actor) + Listing(Listed(users, added, actor), listAll))
  {
    AttributionInert(users, actor);
    ListingInert(Listed(users, added, actor), listAll);
    InertAppend(Attribution(users, actor), Listing(Listed(users, added, actor), listAll));
  }

  /** The attribution names the actor's label, or "<unknown>" when the
      directory does not know the actor. */
  lemma AttributionText(dir: Directory, admins: seq<UserId>, actor: UserId)
    requires Keyed(dir)
    ensures Attribution(GetUsers(dir, Recipients(admins, actor)), actor) == Performed(dir, actor)
  {
    if actor != "" { ActorFound(dir, admins, actor); }
  }

  /** The attribution as the directory determines it: empty without an
      actor, otherwise the actor's label or "<unknown>". */
  function Performed(dir: Directory, actor: UserId): string {
    if actor == "" then ""
    else "\n\nPerformed by " + (if actor in dir then FqLabel(dir[actor]) else "<unknown>")
  }

  /** The text after the note is the attribution and the listing of the
      stored admins, and no placeholder can start in it. */
  lemma NoticeTail(dir: Directory, admins: seq<UserId>, actor: UserId, listAll: bool)
    requires Keyed(dir)
    requires InertLabels(GetUsers(dir, Recipients(admins, actor)))
    ensures var users := GetUsers(dir, Recipients(admins, actor));
            var tail := Attribution(users, actor) + Listing(Listed(users, ActorAdded(admins, actor), actor), listAll);
            && tail == Performed(dir, actor) + Listing(GetUsers(dir, admins), listAll)
            && Inert(tail)
  {
    var users := GetUsers(dir, Recipients(admins, actor));
    TailInert(users, ActorAdded(admins, actor), actor, listAll);
    ListingIsStoredAdmins(dir, admins, actor);
    AttributionText(dir, admins, actor);
  }

  /** Inert text is its own replacement. */
  lemma InertUnchanged(s: string, users: seq<User>)
    requires Inert(s)
    ensures Substitute(s, users) == Some(s)
  {
    SubstitutePlain(s, [], users);
    assert s + [] == s;
    assert Substitute([], users) == Some([]);
  }

  /** A note without placeholders: the text is the note, then
      "Performed by <actor's label>" when an actor is given, then the listing
      of the stored admins when asked for, in this order. */
  lemma PlainNoticeText(dir: Directory, admins: seq<UserId>, note: string, actor: UserId, listAll: bool)
    requires Keyed(dir) && Inert(note)
    requires InertLabels(GetUsers(dir, Recipients(admins, actor)))
    ensures ComposeNotice(dir, admins, note, actor, listAll) == Some(Notice(
              Join(Tags(GetUsers(dir, Recipients(admins, actor))), " + "),
              note + Performed(dir, actor) + Listing(GetUsers(dir, admins), listAll)))
  {
    var users := GetUsers(dir, Recipients(admins, actor));
    var attribution := Attribution(users, actor);
    var listing := Listing(Listed(users, ActorAdded(admins, actor), actor), listAll);
    NoticeTail(dir, admins, actor, listAll);
    InertAppend(note, attribution + listing);
    Regroup(note, attribution, listing);
    InertUnchanged(note + attribution + listing, users);
    Regroup(note, Performed(dir, actor), Listing(GetUsers(dir, admins), listAll));
  }

  /** The actor's record is found among the looked-up users exactly when the
      directory knows the actor. */
  lemma ActorFound(dir: Directory, admins: seq<UserId>, actor: UserId)
    requires Keyed(dir) && actor != ""
    ensures var f := FindUser(GetUsers(dir, Recipients(admins, actor)), actor);
            && (f.Some? <==> actor in dir)
            && (f.Some? ==> f.value == dir[actor])
  {
    var users := GetUsers(dir, Recipients(admins, actor));
    GetUsersExact(dir, Recipients(admins, actor));
    RecipientsSpec(admins, actor);
    if actor in dir {
      assert dir[actor] in users;
      var k :| 0 <= k < |users| && users[k] == dir[actor];
      assert users[k].id == actor;
    }
  }

  /** A note `pre <<id>> post` about a user the directory knows and who is
      among the recipients: the placeholder becomes that user's label and the
      rest reads as for a plain note. */
  lemma PlaceholderNoticeText(dir: Directory, admins: seq<UserId>, pre: string, id: UserId, post: string, actor: UserId, listAll: bool)
    requires Keyed(dir) && Inert(pre) && Inert(post) && '>' !in id
    requires id in dir && id in Recipients(admins, actor)
    requires InertLabels(GetUsers(dir, Recipients(admins, actor)))
    ensures ComposeNotice(dir, admins, pre + "<<" + id + ">>" + post, actor, listAll).Some?
    ensures ComposeNotice(dir, admins, pre + "<<" + id + ">>" + post, actor, listAll).value.text
         == pre + FqLabel(dir[id]) + post + Performed(dir, actor) + Listing(GetUsers(dir, admins), listAll)
  {
    var users := GetUsers(dir, Recipients(admins, actor));
    var attribution := Attribution(users, actor);
    var listing := Listing(Listed(users, ActorAdded(admins, actor), actor), listAll);
    var note := pre + "<<" + id + ">>" + post;
    NoticeTail(dir, admins, actor, listAll);
    InertAppend(post, attribution + listing);
    PlaceholderFound(dir, admins, id, actor);
    SubstituteOne(pre, id, post + (attribution + listing), users);
    Regroup(note, attribution, listing);
    Regroup(pre + "<<" + id + ">>", post, attribution + listing);
    var name := FqLabel(dir[id]);
    Regroup(pre + name, post, attribution + listing);
    Regroup(pre + name + post, Performed(dir, actor), Listing(GetUsers(dir, admins), listAll));
  }

  /** Inert text around one placeholder naming a known user. */
  lemma SubstituteOne(pre: string, id: string, rest: string, users: seq<User>)
    requires Inert(pre) && Inert(rest) && '>' !in id
    requires FindUser(users, id).Some?
    ensures Substitute(pre + "<<" + id + ">>" + rest, users) == Some(pre + FqLabel(FindUser(users, id).value) + rest)
  {
    var l := FqLabel(FindUser(users, id).value);
    RegroupPlaceholder(pre, id, rest);
    SubstitutePlain(pre, "<<" + id + ">>" + rest, users);
    PlaceholderThenInert(id, rest, users);
    Regroup(pre, l, rest);
  }

  lemma Regroup(a: string, b: string, c: string)
    ensures a + b + c == a + (b + c)
  {
  }

  lemma RegroupPlaceholder(pre: string, id: string, rest: string)
    ensures pre + "<<" + id + ">>" + rest == pre + ("<<" + id + ">>" + rest)
  {
  }

  lemma PlaceholderThenInert(id: string, rest: string, users: seq<User>)
    requires Inert(rest) && '>' !in id
    requires FindUser(users, id).Some?
    ensures Substitute("<<" + id + ">>" + rest, users) == Some(FqLabel(FindUser(users, id).value) + rest)
  {
    SubstitutePlaceholder(id, rest, users);
    InertUnchanged(rest, users);
  }

  lemma PlaceholderFound(dir: Directory, admins: seq<UserId>, id: UserId, actor: UserId)
    requires Keyed(dir) && id in dir && id in Recipients(admins, actor)
    ensures FindUser(GetUsers(dir, Recipients(admins, actor)), id) == Some(dir[id])
  {
    var users := GetUsers(dir, Recipients(admins, actor));
    GetUsersExact(dir, Recipients(admins, actor));
    assert dir[id] in users;
    FindUnique(users, id);
  }

  /** In a list of keyed records, the record found for an id is the one
      filed under it. */
  lemma FindUnique(users: seq<User>, id: UserId)
    requires exists k :: 0 <= k < |users| && users[k].id == id
    ensures FindUser(users, id).Some?
  {
  }
}
