/**
  The documents the controllers read and write, in the shape the controllers
  give them, and the database holding the four collections.
*/
module Models {
  import opened Common

  /** An entry of a user's `followers` or `following` list. */
  datatype FollowEntry = FollowEntry(userId: Id, profilePicture: string, username: string)

  /**
    A user document. `password` holds the bcrypt digest; `bio` is "" until
    set; `refreshToken` is null until the first login and after a logout.
  */
  datatype User = User(
    username: string,
    email: string,
    password: string,
    profilePicture: string,
    bio: string,
    refreshToken: Option<string>,
    followers: seq<FollowEntry>,
    following: seq<FollowEntry>)

  datatype Comment = Comment(id: Id, userId: Id, comment: string, createdAt: nat)

  /** A post document; `postImage` is null for a text-only post. */
  datatype Post = Post(
    id: Id,
    postedBy: Id,
    postDescription: string,
    postImage: Option<string>,
    likes: int,
    comments: seq<Comment>,
    createdAt: nat)

  /** A direct message; `readStatus` is false until the receiver marks it read. */
  datatype Message = Message(
    id: Id,
    senderId: Id,
    receiverId: Id,
    text: string,
    createdAt: nat,
    readStatus: bool)

  /** The values the report schema admits for `itemType` and `status`. */
  datatype ItemType = UserItem | PostItem | CommentItem
  datatype ReportStatus = Pending | Resolved

  datatype Report = Report(
    reportedBy: Id,
    reportedItem: Id,
    itemType: ItemType,
    reason: string,
    status: ReportStatus,
    createdAt: nat)

  /** The schema's `enum` for `itemType`: anything else fails validation on create. */
  function ParseItemType(s: string): (t: Option<ItemType>)
    ensures t.Some? <==> s in {"user", "post", "comment"}
    ensures t == Some(UserItem) <==> s == "user"
    ensures t == Some(PostItem) <==> s == "post"
    ensures t == Some(CommentItem) <==> s == "comment"
  {
    if s == "user" then Some(UserItem)
    else if s == "post" then Some(PostItem)
    else if s == "comment" then Some(CommentItem)
    else None
  }

  /** The unique indexes on `username` and `email`: no two users share either. */
  ghost predicate UniqueLogins(users: map<Id, User>) {
    forall a, b :: a in users && b in users && a != b ==>
      users[a].username != users[b].username && users[a].email != users[b].email
  }

  /** Some user other than `self` already has this username or this email. */
  predicate LoginTaken(users: map<Id, User>, self: Option<Id>, username: string, email: string) {
    exists id :: id in users && Some(id) != self && (users[id].username == username || users[id].email == email)
  }

  /** `User.findOne({ username })` finds a document. */
  predicate HasUsername(users: map<Id, User>, username: string) {
    exists id :: id in users && users[id].username == username
  }

  ghost predicate UniqueIds<T>(s: seq<T>, idOf: T -> Id) {
    forall i, j :: 0 <= i < j < |s| ==> idOf(s[i]) != idOf(s[j])
  }

  function PostId(p: Post): Id { p.id }
  function MessageId(m: Message): Id { m.id }

  /** The ids in use in a collection kept in natural order. */
  function IdsOf<T>(s: seq<T>, idOf: T -> Id): (ids: set<Id>)
    ensures forall i | 0 <= i < |s| :: idOf(s[i]) in ids
    ensures forall id | id in ids :: exists i | 0 <= i < |s| :: idOf(s[i]) == id
  {
    set i | 0 <= i < |s| :: idOf(s[i])
  }

  /** `findById` on a collection in natural order: the position of the first document with that id. */
  function IndexOf<T>(s: seq<T>, idOf: T -> Id, id: Id): (r: Option<nat>)
    ensures r.Some? ==> r.value < |s| && idOf(s[r.value]) == id
    ensures r.Some? ==> forall k | 0 <= k < r.value :: idOf(s[k]) != id
    ensures r.None? <==> forall k | 0 <= k < |s| :: idOf(s[k]) != id
  {
    if s == [] then None
    else if idOf(s[0]) == id then Some(0)
    else
      var r := IndexOf(s[1..], idOf, id);
      if r.None? then
        assert forall k | 1 <= k < |s| :: s[k] == s[1..][k - 1];
        None
      else
        Some(r.value + 1)
  }

  /** The collection without the document at position `i`. */
  function RemoveAt<T>(s: seq<T>, i: nat): (r: seq<T>)
    requires i < |s|
    ensures |r| == |s| - 1
    ensures forall k | 0 <= k < i :: r[k] == s[k]
    ensures forall k | i <= k < |r| :: r[k] == s[k + 1]
  {
    s[..i] + s[i + 1..]
  }

  /** Removing a document keeps the ids of the others distinct and drops exactly its id. */
  lemma RemoveAtKeepsUnique<T>(s: seq<T>, idOf: T -> Id, i: nat)
    requires i < |s| && UniqueIds(s, idOf)
    ensures UniqueIds(RemoveAt(s, i), idOf)
    ensures IdsOf(RemoveAt(s, i), idOf) == IdsOf(s, idOf) - {idOf(s[i])}
  {
    var r := RemoveAt(s, i);
    forall a, b | 0 <= a < b < |r|
      ensures idOf(r[a]) != idOf(r[b])
    {
      var a' := if a < i then a else a + 1;
      var b' := if b < i then b else b + 1;
      assert r[a] == s[a'] && r[b] == s[b'];
    }
    forall id | id in IdsOf(s, idOf) - {idOf(s[i])}
      ensures id in IdsOf(r, idOf)
    {
      var k :| 0 <= k < |s| && idOf(s[k]) == id;
      assert k != i;
      if k < i { assert r[k] == s[k]; } else { assert r[k - 1] == s[k]; }
    }
    forall id | id in IdsOf(r, idOf)
      ensures id in IdsOf(s, idOf) - {idOf(s[i])}
    {
      var k :| 0 <= k < |r| && idOf(r[k]) == id;
      var k' := if k < i then k else k + 1;
      assert r[k] == s[k'];
    }
  }

  /** No user appears twice in a `following` list. */
  ghost predicate DistinctFollows(list: seq<FollowEntry>) {
    forall i, j :: 0 <= i < j < |list| ==> list[i].userId != list[j].userId
  }

  /** The invariant of the users collection: unique logins, no duplicate follows. */
  ghost predicate ValidUsers(users: map<Id, User>) {
    && UniqueLogins(users)
    && (forall id | id in users :: DistinctFollows(users[id].following))
  }

  /** Rewriting a user without touching the indexed fields keeps the invariant. */
  lemma UpdateKeepsValidUsers(users: map<Id, User>, id: Id, u: User)
    requires ValidUsers(users) && id in users
    requires u.username == users[id].username && u.email == users[id].email
    requires DistinctFollows(u.following)
    ensures ValidUsers(users[id := u])
  {
  }

  /** Every post's like counter is at least zero. */
  ghost predicate LikesNonNegative(posts: seq<Post>) {
    forall i | 0 <= i < |posts| :: posts[i].likes >= 0
  }

  /**
    The database: users and reports by id, posts and messages in their
    natural (insertion) order, which is the order queries see before
    sorting.
  */
  class Db {
    var users: map<Id, User>
    var posts: seq<Post>
    var messages: seq<Message>
    var reports: map<Id, Report>

    ghost predicate Valid()
      reads this
    {
      && ValidUsers(users)
      && UniqueIds(posts, PostId)
      && LikesNonNegative(posts)
      && UniqueIds(messages, MessageId)
    }

    constructor ()
      ensures Valid()
      ensures users == map[] && posts == [] && messages == [] && reports == map[]
    {
      users := map[];
      posts := [];
      messages := [];
      reports := map[];
    }
  }
}
