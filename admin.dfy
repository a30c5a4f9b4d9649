/**
  The admin controller: listing every user without the password digest,
  deleting a user or a post by id without any ownership check, and
  resolving a report.
*/
module Admin {
  import opened Common
  import opened Models

  /** A user as `select("-password")` returns it: every stored field but the digest. */
  datatype AdminUserView = AdminUserView(
    id: Id,
    username: string,
    email: string,
    profilePicture: string,
    bio: string,
    refreshToken: Option<string>,
    followers: seq<FollowEntry>,
    following: seq<FollowEntry>)

  /**
    `getAllUsers`: one entry per stored user, carrying that user's fields
    except the password digest.
  */
  function GetAllUsers(users: map<Id, User>): (r: Reply<map<Id, AdminUserView>>)
    ensures r.Ok? && r.status == 200
    ensures r.body.Keys == users.Keys
    ensures forall id | id in r.body ::
      var v := r.body[id];
      var u := users[id];
      && v.id == id && v.username == u.username && v.email == u.email
      && v.profilePicture == u.profilePicture && v.bio == u.bio
      && v.refreshToken == u.refreshToken
      && v.followers == u.followers && v.following == u.following
  {
    Ok(200, map id | id in users ::
      AdminUserView(id, users[id].username, users[id].email, users[id].profilePicture,
                    users[id].bio, users[id].refreshToken, users[id].followers, users[id].following))
  }

  /**
    `deleteUser`: 404 when the user is missing; otherwise that user, and no
    other, leaves the collection. Entries for the user in other users'
    lists, and the user's posts and messages, stay where they are.
  */
  method DeleteUser(db: Db, userId: Id) returns (r: Reply<()>)
    requires db.Valid()
    modifies db`users
    ensures db.Valid()
    ensures userId !in old(db.users) ==> r == Err(404) && db.users == old(db.users)
    ensures userId in old(db.users) ==> r == Ok(200, ()) && db.users == old(db.users) - {userId}
  {
    if userId !in db.users {
      return Err(404);
    }
    db.users := db.users - {userId};
    r := Ok(200, ());
  }

  /**
    `deletePost` (admin): 404 when the post is missing; otherwise exactly
    that post is removed, whoever posted it.
  */
  method DeletePost(db: Db, postId: Id) returns (r: Reply<()>)
    requires db.Valid()
    modifies db`posts
    ensures db.Valid()
    ensures IndexOf(old(db.posts), PostId, postId).None? ==> r == Err(404) && db.posts == old(db.posts)
    ensures IndexOf(old(db.posts), PostId, postId).Some? ==>
      && r == Ok(200, ())
      && db.posts == RemoveAt(old(db.posts), IndexOf(old(db.posts), PostId, postId).value)
      && IdsOf(db.posts, PostId) == IdsOf(old(db.posts), PostId) - {postId}
  {
    var found := IndexOf(db.posts, PostId, postId);
    if found.None? {
      return Err(404);
    }
    RemoveAtKeepsUnique(db.posts, PostId, found.value);
    db.posts := RemoveAt(db.posts, found.value);
    r := Ok(200, ());
  }

  /**
    `resolveReport`: 404 when the report is missing; otherwise its status
    becomes resolved and nothing else changes, so resolving a resolved
    report leaves the collection as it was.
  */
  method ResolveReport(db: Db, reportId: Id) returns (r: Reply<()>)
    requires db.Valid()
    modifies db`reports
    ensures db.Valid()
    ensures reportId !in old(db.reports) ==> r == Err(404) && db.reports == old(db.reports)
    ensures reportId in old(db.reports) ==>
      && r == Ok(200, ())
      && db.reports == old(db.reports)[reportId := old(db.reports)[reportId].(status := Resolved)]
      && (old(db.reports)[reportId].status == Resolved ==> db.reports == old(db.reports))
  {
    if reportId !in db.reports {
      return Err(404);
    }
    db.reports := db.reports[reportId := db.reports[reportId].(status := Resolved)];
    r := Ok(200, ());
  }
}
