/**
  Client sessions that chain several handlers on one database, and what
  the handlers' contracts promise about the whole exchange.
*/
module Scenarios {
  import opened Common
  import opened Models
  import opened Session
  import opened Users
  import Posts
  import Messages

  /**
    Registering and then logging in with the same username and password
    succeeds, provided bcrypt matches a password with its own digest.
  */
  method RegisterThenLogin(db: Db, bcrypt: Hasher, username: string, email: string, password: string,
                           salt: nat, issued: TokenPair)
    returns (registered: Reply<PublicUser>, login: Reply<LoginBody>)
    requires db.Valid() && Sound(bcrypt)
    modifies db`users
    ensures db.Valid()
    ensures registered.Ok? ==> login.Ok? && login.status == 200 && login.body.tokens == issued
  {
    registered := RegisterUser(db, bcrypt, username, email, password, NoFile, salt);
    if registered.Err? {
      login := Err(400);
      return;
    }
    var id := registered.body.id;
    assert db.users[id].username == username;
    assert bcrypt.compare(password, db.users[id].password);
    login := LoginUser(db, bcrypt, username, password, issued);
  }

  /**
    Refresh-token rotation: after a login stores `first` and a refresh
    presenting it stores `second`, presenting `first` again is refused and
    leaves `second` in place.
  */
  method RotationRevokesOldToken(db: Db, bcrypt: Hasher, userId: Id, username: string, password: string,
                                 first: TokenPair, second: TokenPair, third: TokenPair)
    returns (replay: Reply<User>)
    requires db.Valid()
    requires userId in db.users && db.users[userId].username == username
    requires Given(username) && Given(password) && bcrypt.compare(password, db.users[userId].password)
    requires first.refresh != "" && second.refresh != first.refresh
    modifies db`users
    ensures db.Valid()
    ensures replay == Err(401)
    ensures userId in db.users && db.users[userId].refreshToken == Some(second.refresh)
  {
    var login := LoginUser(db, bcrypt, username, password, first);
    assert db.users[userId].refreshToken == Some(first.refresh);
    var refreshed := RefreshAccessToken(db, userId, Some(first.refresh), None, second);
    assert db.users[userId].refreshToken == Some(second.refresh);
    replay := RefreshAccessToken(db, userId, Some(first.refresh), None, third);
  }

  /** After a logout no refresh succeeds, whatever the request presents. */
  method LogoutRevokes(db: Db, userId: Id, cookie: Option<string>, authorization: Option<string>, issued: TokenPair)
    returns (refresh: Reply<User>)
    requires db.Valid() && userId in db.users
    modifies db`users
    ensures db.Valid()
    ensures refresh == Err(401)
  {
    var out := LogoutUser(db, userId);
    refresh := RefreshAccessToken(db, userId, cookie, authorization, issued);
  }

  /** A post its author creates and then deletes leaves the posts as they were. */
  method CreateThenDeletePost(db: Db, userId: Id, description: string, now: nat)
    returns (created: Reply<Post>, deleted: Reply<()>)
    requires db.Valid() && Given(description)
    modifies db`posts
    ensures db.Valid()
    ensures created.Ok? && deleted == Ok(200, ())
    ensures db.posts == old(db.posts)
  {
    ghost var before := db.posts;
    created := Posts.CreatePost(db, userId, description, NoFile, now);
    var post := created.body;
    assert db.posts == before + [post];
    assert post.id !in IdsOf(before, PostId);
    forall k | 0 <= k < |before|
      ensures PostId(db.posts[k]) != post.id
    {
      assert db.posts[k] == before[k];
    }
    assert PostId(db.posts[|before|]) == post.id;
    assert IndexOf(db.posts, PostId, post.id) == Some(|before|);
    deleted := Posts.DeletePost(db, userId, post.id);
    assert RemoveAt(before + [post], |before|) == before;
  }

  /** Marking a message read a second time changes nothing further. */
  method MarkReadTwice(db: Db, messageId: Id) returns (first: Reply<Message>, second: Reply<Message>)
    requires db.Valid()
    modifies db`messages
    ensures db.Valid()
    ensures first == second
    ensures first.Ok? ==> first.body.readStatus
  {
    first := Messages.MarkMessageAsRead(db, messageId);
    ghost var afterFirst := db.messages;
    second := Messages.MarkMessageAsRead(db, messageId);
    assert db.messages == afterFirst;
  }
}
