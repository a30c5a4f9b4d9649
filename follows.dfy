/**
  The `following` and `followers` lists of a user: what follow pushes, what
  unfollow filters out, and the guard against following someone twice.

  The handlers compare ids with list entries that are objects. This module
  gives both the comparisons as the source writes them (which never match)
  and the comparisons evidently intended (by the entry's `userId`); the
  handlers in module Users use the intended ones.
*/
module Follows {
  import opened Common
  import opened Models
  import opened Queries

  /** The entry describing user `id` that a follow pushes onto the other user's list. */
  function EntryFor(id: Id, u: User): FollowEntry {
    FollowEntry(id, u.profilePicture, u.username)
  }

  // ---------------------------------------------------------------------
  // The comparisons as written.
  // ---------------------------------------------------------------------

  /** The JavaScript values these comparisons involve. */
  datatype JsValue = JsString(s: string) | JsObjectId(hex: Id) | JsEntry(entry: FollowEntry)

  /**
    `a === b` for the values compared here: two strings are strictly equal
    when they have the same characters; a string is never strictly equal to
    an object (an ObjectId or a list entry).
  */
  predicate StrictEquals(a: JsValue, b: JsValue)
    requires a.JsString? || b.JsString?
  {
    a.JsString? && b.JsString? && a.s == b.s
  }

  /**
    `v.toString()`: a string is itself, an ObjectId is its hexadecimal
    form, and a list entry (a subdocument) renders as an object literal,
    which begins with `{`. Only that first character matters to the
    comparisons below; the rest of the rendering here is arbitrary (the
    driver's own output also shows the subdocument's `_id` and line breaks).
  */
  function ToString(v: JsValue): (r: string)
    ensures v.JsEntry? ==> r != [] && r[0] == '{'
  {
    match v
    case JsString(s) => s
    case JsObjectId(hex) => hex
    case JsEntry(e) =>
      "{ userId: '" + e.userId + "', profilePicture: '" + e.profilePicture
      + "', username: '" + e.username + "' }"
  }

  /**
    `a == b` between a string and a list entry: the entry is converted to
    its string form first, so the two are equal only when the string is
    that form.
  */
  predicate LooseEqualsEntry(a: string, e: FollowEntry) {
    a == ToString(JsEntry(e))
  }

  /**
    `user.following.includes(followUserId)` as written. A Mongoose array's
    `includes` goes through its `indexOf`, which compares each entry with
    loose `==`; the entries are objects and the id a string.
  */
  predicate IncludesAsWritten(following: seq<FollowEntry>, followUserId: Id) {
    exists i | 0 <= i < |following| :: LooseEqualsEntry(followUserId, following[i])
  }

  /** `user.following.filter(id => id.toString() !== unfollowUserId)` as written. */
  function UnfollowFilterAsWritten(following: seq<FollowEntry>, unfollowUserId: Id): seq<FollowEntry> {
    Filter(following, (e: FollowEntry) => !StrictEquals(JsString(ToString(JsEntry(e))), JsString(unfollowUserId)))
  }

  /**
    `userToUnfollow.followers.filter(id => id.toString() !== userId)` as
    written, where `userId` is the requesting user's ObjectId.
  */
  function FollowersFilterAsWritten(followers: seq<FollowEntry>, userId: Id): seq<FollowEntry> {
    Filter(followers, (e: FollowEntry) => !StrictEquals(JsString(ToString(JsEntry(e))), JsObjectId(userId)))
  }

  /**
    The duplicate guard never fires for an id that does not start with `{`
    (an ObjectId's hexadecimal form never does), whatever the list holds:
    a user who already follows `b` passes it again, and the push then
    leaves two entries for `b`.
  */
  lemma DuplicateFollowAsWritten(following: seq<FollowEntry>, b: Id, pic: string, name: string)
    requires b == [] || b[0] != '{'
    ensures !IncludesAsWritten(following, b)
    ensures Lists(following, b) ==> !DistinctFollows(following + [FollowEntry(b, pic, name)])
  {
    if Lists(following, b) {
      var i :| 0 <= i < |following| && following[i].userId == b;
      var after := following + [FollowEntry(b, pic, name)];
      assert after[i].userId == after[|following|].userId;
    }
  }

  /**
    Unfollowing as written removes nothing from `following`: an entry's
    string form starts with `{`, which an id never does.
  */
  lemma UnfollowAsWrittenKeepsAll(following: seq<FollowEntry>, unfollowUserId: Id)
    requires unfollowUserId == [] || unfollowUserId[0] != '{'
    ensures UnfollowFilterAsWritten(following, unfollowUserId) == following
  {
    FilterKeepsAll(following, (e: FollowEntry) => !StrictEquals(JsString(ToString(JsEntry(e))), JsString(unfollowUserId)));
  }

  /** Nor does it remove anything from the other user's `followers`. */
  lemma FollowersFilterAsWrittenKeepsAll(followers: seq<FollowEntry>, userId: Id)
    ensures FollowersFilterAsWritten(followers, userId) == followers
  {
    FilterKeepsAll(followers, (e: FollowEntry) => !StrictEquals(JsString(ToString(JsEntry(e))), JsObjectId(userId)));
  }

  // ---------------------------------------------------------------------
  // The comparisons as intended: by the entry's userId.
  // ---------------------------------------------------------------------

  /** Some entry of the list is for user `id`. */
  predicate Lists(list: seq<FollowEntry>, id: Id) {
    exists i | 0 <= i < |list| :: list[i].userId == id
  }

  /** The list without the entries for user `id`. */
  function Unlist(list: seq<FollowEntry>, id: Id): (r: seq<FollowEntry>)
    ensures !Lists(r, id)
    ensures forall i | 0 <= i < |list| && list[i].userId != id :: list[i] in r
    ensures forall i | 0 <= i < |r| :: r[i] in list
  {
    var kept := Filter(list, (e: FollowEntry) => e.userId != id);
    assert forall i | 0 <= i < |kept| :: kept[i] in kept;
    kept
  }

  /** The guarded push keeps the list free of duplicates. */
  lemma FollowKeepsDistinct(list: seq<FollowEntry>, e: FollowEntry)
    requires DistinctFollows(list) && !Lists(list, e.userId)
    ensures DistinctFollows(list + [e])
  {
  }

  /** Unfollowing keeps the list free of duplicates. */
  lemma {:induction false} UnlistKeepsDistinct(list: seq<FollowEntry>, id: Id)
    requires DistinctFollows(list)
    ensures DistinctFollows(Unlist(list, id))
  {
    if list != [] {
      UnlistKeepsDistinct(list[1..], id);
      var rest := Unlist(list[1..], id);
      var keep := (e: FollowEntry) => e.userId != id;
      assert Filter(list, keep) == if keep(list[0]) then [list[0]] + rest else rest;
      forall k | 0 <= k < |rest|
        ensures rest[k].userId != list[0].userId
      {
        assert rest[k] in list[1..];
      }
    }
  }

  /** Unfollowing right after following restores the list the user had. */
  lemma FollowThenUnfollow(list: seq<FollowEntry>, e: FollowEntry)
    requires !Lists(list, e.userId)
    ensures Unlist(list + [e], e.userId) == list
  {
    var keep := (x: FollowEntry) => x.userId != e.userId;
    FilterAppend(list, [e], keep);
    FilterKeepsAll(list, keep);
    assert Filter([e], keep) == [];
  }
}
