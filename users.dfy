/** Directory records as the bot sees them, the identity strings it derives
    from them (fully-qualified tag, full name, label) and the two directory
    lookups, `getUsers` and `find`, treated as pure functions of a
    directory snapshot. */
module Users {
  import opened Results
  import opened Text

  type UserId = string

  /** A directory user: `{id, tag: {slug}, org: {slug}, first_name,
      middle_name, last_name}`; a missing name part is the empty string. */
  datatype User = User(
    id: UserId,
    tagSlug: string,
    orgSlug: string,
    firstName: string,
    middleName: string,
    lastName: string)

  /** A resolved tag expression. */
  datatype Distribution = Distribution(userids: seq<UserId>, warnings: seq<string>)

  /** The directory snapshot, keyed by user id. */
  type Directory = map<UserId, User>

  /** Every record is filed under its own id. */
  predicate Keyed(dir: Directory) {
    forall id :: id in dir ==> dir[id].id == id
  }

  /** The resolution names one user and raised no warning. */
  predicate SingleTarget(d: Distribution) {
    |d.userids| == 1 && |d.warnings| == 0
  }

  /** `(s && s[0] === '@') ? s : '@' + s`. */
  function AsTag(s: string): (t: string)
    ensures |t| > 0 && t[0] == '@'
    ensures |s| > 0 && s[0] == '@' ==> t == s
    ensures !(|s| > 0 && s[0] == '@') ==> t[1..] == s
  {
    if |s| > 0 && s[0] == '@' then s else "@" + s
  }

  /** `@tag:org`. */
  function FqTag(u: User): string {
    "@" + u.tagSlug + ":" + u.orgSlug
  }

  /** The trimmed name parts that are not empty, in order. */
  function NameParts(parts: seq<string>): (r: seq<string>)
    ensures |r| <= |parts|
    ensures forall k :: 0 <= k < |r| ==> r[k] != [] && Trimmed(r[k])
  {
    if parts == [] then []
    else
      var t := Trim(parts[0]);
      if t == [] then NameParts(parts[1..]) else [t] + NameParts(parts[1..])
  }

  /** First, middle and last name, trimmed, blanks dropped, joined by a space. */
  function FqName(u: User): string {
    Join(NameParts([u.firstName, u.middleName, u.lastName]), " ")
  }

  /** `@tag:org (Full Name)`. */
  function FqLabel(u: User): string {
    FqTag(u) + " (" + FqName(u) + ")"
  }

  /** The full name has no surrounding whitespace, and it is empty exactly
      when every name part is blank. */
  lemma {:induction false} FqNameTrimmed(u: User)
    ensures Trimmed(FqName(u))
    ensures FqName(u) == [] <==> Trim(u.firstName) == [] && Trim(u.middleName) == [] && Trim(u.lastName) == []
  {
    var parts := [u.firstName, u.middleName, u.lastName];
    JoinTrimmed(NameParts(parts), " ");
    NamePartsEmpty(parts);
    AllBlankOfThree(u.firstName, u.middleName, u.lastName);
  }

  lemma AllBlankOfThree(a: string, b: string, c: string)
    ensures (forall k :: 0 <= k < 3 ==> Trim([a, b, c][k]) == [])
        <==> Trim(a) == [] && Trim(b) == [] && Trim(c) == []
  {
    var parts := [a, b, c];
    assert parts[0] == a && parts[1] == b && parts[2] == c;
  }

  /** No part survives exactly when every part is blank. */
  lemma {:induction false} NamePartsEmpty(parts: seq<string>)
    ensures NameParts(parts) == [] <==> forall k :: 0 <= k < |parts| ==> Trim(parts[k]) == []
  {
    if parts != [] {
      NamePartsEmpty(parts[1..]);
      assert forall k :: 0 < k < |parts| ==> parts[k] == parts[1..][k - 1];
    }
  }

  /** A name part as `fqName` keeps it: trimmed, or nothing when blank. */
  function Kept(part: string): seq<string> {
    if Trim(part) == [] then [] else [Trim(part)]
  }

  /** The kept parts of a concatenation are the kept parts of each side. */
  lemma {:induction false} NamePartsAppend(a: seq<string>, b: seq<string>)
    ensures NameParts(a + b) == NameParts(a) + NameParts(b)
  {
    if a != [] {
      assert (a + b)[1..] == a[1..] + b;
      NamePartsAppend(a[1..], b);
    } else {
      assert a + b == b;
    }
  }

  /** The kept parts are exactly the non-blank trimmed input parts. */
  lemma {:induction false} NamePartsMembers(parts: seq<string>)
    ensures forall x :: x in NameParts(parts) <==>
              exists k :: 0 <= k < |parts| && x == Trim(parts[k]) && x != []
  {
    if parts != [] {
      NamePartsMembers(parts[1..]);
      assert forall k :: 0 < k < |parts| ==> parts[1..][k - 1] == parts[k];
    }
  }

  /** The full name is the first, middle and last name, each trimmed, the
      blank ones dropped, in that order, joined by single spaces. */
  lemma FqNameOrder(u: User)
    ensures FqName(u) == Join(Kept(u.firstName) + Kept(u.middleName) + Kept(u.lastName), " ")
  {
    var parts := [u.firstName, u.middleName, u.lastName];
    assert parts == [u.firstName] + [u.middleName] + [u.lastName];
    NamePartsAppend([u.firstName] + [u.middleName], [u.lastName]);
    NamePartsAppend([u.firstName], [u.middleName]);
    assert NameParts([u.firstName]) == Kept(u.firstName);
    assert NameParts([u.middleName]) == Kept(u.middleName);
    assert NameParts([u.lastName]) == Kept(u.lastName);
  }

  /** A character that is in none of the record's slugs and names, nor in the
      label's punctuation, is not in the label. */
  lemma LabelAvoids(u: User, c: char)
    requires c !in "@: ()"
    requires c !in u.tagSlug && c !in u.orgSlug
    requires c !in u.firstName && c !in u.middleName && c !in u.lastName
    ensures c !in FqLabel(u)
  {
    var parts := [u.firstName, u.middleName, u.lastName];
    NamePartsAvoid(parts, c);
    JoinAvoids(NameParts(parts), " ", c);
  }

  lemma {:induction false} NamePartsAvoid(parts: seq<string>, c: char)
    requires forall k :: 0 <= k < |parts| ==> c !in parts[k]
    ensures forall k :: 0 <= k < |NameParts(parts)| ==> c !in NameParts(parts)[k]
  {
    if parts != [] {
      NamePartsAvoid(parts[1..], c);
      TrimAvoids(parts[0], c);
    }
  }

  /** `getUsers(ids)`: the records of the ids the directory knows, in the
      order of `ids`. */
  function GetUsers(dir: Directory, ids: seq<UserId>): (r: seq<User>)
    ensures |r| <= |ids|
  {
    if ids == [] then []
    else if ids[0] in dir then [dir[ids[0]]] + GetUsers(dir, ids[1..])
    else GetUsers(dir, ids[1..])
  }

  lemma {:induction false} GetUsersAppend(dir: Directory, a: seq<UserId>, b: seq<UserId>)
    ensures GetUsers(dir, a + b) == GetUsers(dir, a) + GetUsers(dir, b)
  {
    if a != [] {
      assert (a + b)[1..] == a[1..] + b;
      GetUsersAppend(dir, a[1..], b);
    } else {
      assert a + b == b;
    }
  }

  /** Against a keyed directory, the looked-up users are exactly the records
      of the requested ids that the directory knows. */
  lemma {:induction false} GetUsersExact(dir: Directory, ids: seq<UserId>)
    requires Keyed(dir)
    ensures forall u :: u in GetUsers(dir, ids) <==> u.id in ids && u.id in dir && dir[u.id] == u
  {
    if ids != [] {
      GetUsersExact(dir, ids[1..]);
      assert forall id :: id in ids <==> id == ids[0] || id in ids[1..];
    }
  }

  /** `users.find(u => u.id === id)`. */
  function FindUser(users: seq<User>, id: UserId): (r: Option<User>)
    ensures r.Some? <==> exists k :: 0 <= k < |users| && users[k].id == id
    ensures r.Some? ==> r.value in users && r.value.id == id
  {
    if users == [] then None
    else if users[0].id == id then Some(users[0])
    else
      var r := FindUser(users[1..], id);
      assert forall k :: 0 < k < |users| ==> users[k] == users[1..][k - 1];
      r
  }

  /** `find` returns the first user carrying the id. */
  lemma {:induction false} FindUserFirst(users: seq<User>, id: UserId, k: nat)
    requires k < |users| && users[k].id == id
    requires forall j :: 0 <= j < k ==> users[j].id != id
    ensures FindUser(users, id) == Some(users[k])
  {
    if k > 0 {
      FindUserFirst(users[1..], id, k - 1);
    }
  }

  /** Tags of a list of users, for a distribution expression. */
  function Tags(users: seq<User>): (r: seq<string>)
    ensures |r| == |users| && forall k :: 0 <= k < |r| ==> r[k] == FqTag(users[k])
  {
    seq(|users|, k requires 0 <= k < |users| => FqTag(users[k]))
  }

  /** Labels of a list of users. */
  function Labels(users: seq<User>): (r: seq<string>)
    ensures |r| == |users| && forall k :: 0 <= k < |r| ==> r[k] == FqLabel(users[k])
  {
    seq(|users|, k requires 0 <= k < |users| => FqLabel(users[k]))
  }
}
