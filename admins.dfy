/** The stored list of administrator ids and the two ways the bot edits it:
    `push` of an id that is absent (addAdministrator) and `splice` at
    `indexOf` (removeAdministrator). */
module Admins {
  import opened Users

  predicate NoDuplicates(ids: seq<UserId>) {
    forall i, j :: 0 <= i < j < |ids| ==> ids[i] != ids[j]
  }

  /** `ids.indexOf(id)`: the first position of `id`, or -1. */
  function IndexOf(ids: seq<UserId>, id: UserId): (r: int)
    ensures -1 <= r < |ids|
    ensures r == -1 <==> id !in ids
    ensures 0 <= r ==> ids[r] == id && id !in ids[..r]
  {
    if ids == [] then -1
    else if ids[0] == id then 0
    else
      var k := IndexOf(ids[1..], id);
      if k == -1 then -1
      else
        assert ids[..k + 1] == [ids[0]] + ids[1..][..k];
        k + 1
  }

  /** The list after addAdministrator: `uid` pushed when it is absent. */
  function WithAdmin(ids: seq<UserId>, uid: UserId): seq<UserId> {
    if uid in ids then ids else ids + [uid]
  }

  /** The list after removeAdministrator: `ids.splice(ids.indexOf(id), 1)`. */
  function WithoutAdmin(ids: seq<UserId>, id: UserId): seq<UserId>
    requires id in ids
  {
    var i := IndexOf(ids, id);
    ids[..i] + ids[i + 1..]
  }

  /** Adding keeps the existing ids in their order, makes `uid` a member,
      brings in nothing else, and never introduces a duplicate. */
  lemma WithAdminSpec(ids: seq<UserId>, uid: UserId)
    ensures var r := WithAdmin(ids, uid);
            && r[..|ids|] == ids
            && uid in r
            && (forall x :: x in r <==> x in ids || x == uid)
            && (NoDuplicates(ids) ==> NoDuplicates(r))
            && (uid in ids ==> r == ids)
  {
    var r := WithAdmin(ids, uid);
    assert r[..|ids|] == ids;
    if uid !in ids {
      assert forall x :: x in r <==> x in ids || x == uid by {
        forall x ensures x in r <==> x in ids || x == uid {
          if x == uid { assert r[|ids|] == uid; }
          if x in r { var k :| 0 <= k < |r| && r[k] == x; if k < |ids| { assert ids[k] == x; } }
        }
      }
    }
  }

  /** Removing takes out exactly one occurrence of `id`, its first, and keeps
      the other ids in their order. */
  lemma WithoutAdminSpec(ids: seq<UserId>, id: UserId)
    requires id in ids
    ensures var r := WithoutAdmin(ids, id); var i := IndexOf(ids, id);
            && |r| == |ids| - 1
            && multiset(r) == multiset(ids) - multiset{id}
            && (forall k :: 0 <= k < i ==> r[k] == ids[k])
            && (forall k :: i <= k < |r| ==> r[k] == ids[k + 1])
            && id !in ids[..i]
  {
    var i := IndexOf(ids, id);
    var r := WithoutAdmin(ids, id);
    assert ids == ids[..i] + [ids[i]] + ids[i + 1..];
    assert multiset(ids) == multiset(ids[..i]) + multiset{id} + multiset(ids[i + 1..]);
  }

  /** On a list without duplicates the removed id is gone afterwards and no
      duplicate appears. */
  lemma WithoutAdminUnique(ids: seq<UserId>, id: UserId)
    requires id in ids && NoDuplicates(ids)
    ensures id !in WithoutAdmin(ids, id)
    ensures NoDuplicates(WithoutAdmin(ids, id))
  {
    var i := IndexOf(ids, id);
    var r := WithoutAdmin(ids, id);
    WithoutAdminSpec(ids, id);
    forall k | 0 <= k < |r| ensures r[k] != id {
      if k < i { assert r[k] == ids[k]; } else { assert r[k] == ids[k + 1]; }
    }
    forall a, b | 0 <= a < b < |r| ensures r[a] != r[b] {
      var a', b' := if a < i then a else a + 1, if b < i then b else b + 1;
      assert r[a] == ids[a'] && r[b] == ids[b'];
    }
  }

  /** Removing an id that was just added gives back the list before the add. */
  lemma AddThenRemove(ids: seq<UserId>, uid: UserId)
    requires uid !in ids
    ensures WithoutAdmin(WithAdmin(ids, uid), uid) == ids
  {
    var r := ids + [uid];
    assert r[..|ids|] == ids;
    assert uid !in r[..|ids|];
    assert IndexOf(r, uid) == |ids|;
  }
}
