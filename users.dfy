/**
  The user controller: registration, the session-token handlers (login,
  refresh, logout), password change, profile details, and follow/unfollow.
  Every handler either changes the users collection and replies with a
  success status, or replies with the status of the error it throws and
  leaves the collection as it was.
*/
module Users {
  import opened Common
  import opened Models
  import opened Session
  import opened Text
  import opened Follows

  /** The picture a user gets when registering without one. */
  const DefaultProfilePicture: string :=
    "https://res.cloudinary.com/dqj0v1x2g/image/upload/v1698236484/blank-profile-picture-973460_640_ojxk5c.png"

  /** A user document as `select("-password -refreshToken")` returns it. */
  datatype PublicUser = PublicUser(
    id: Id,
    username: string,
    email: string,
    profilePicture: string,
    bio: string,
    followers: seq<FollowEntry>,
    following: seq<FollowEntry>)

  function Redact(id: Id, u: User): PublicUser {
    PublicUser(id, u.username, u.email, u.profilePicture, u.bio, u.followers, u.following)
  }

  /** `profilePictureUrl || default`: the uploaded URL when it is truthy. */
  function ProfilePictureFor(file: FileUpload): string {
    if file.Uploaded? && file.url != "" then file.url else DefaultProfilePicture
  }

  /** The document `User.create` stores for a registration. */
  function NewUser(username: string, email: string, digest: string, picture: string): User {
    User(username, email, digest, picture, "", None, [], [])
  }

  /** What a login replies with: the two tokens and the user document as read before they were issued. */
  datatype LoginBody = LoginBody(tokens: TokenPair, user: User)

  /**
    `generateAccessAndRefereshTokens`: stores the newly issued refresh token
    on the user and hands back both tokens. A missing user makes the token
    methods throw, which the helper turns into a 500.
  */
  method GenerateAccessAndRefreshTokens(db: Db, userId: Id, issued: TokenPair) returns (tokens: Option<TokenPair>)
    requires db.Valid()
    modifies db`users
    ensures db.Valid()
    ensures userId !in old(db.users) ==> tokens.None? && db.users == old(db.users)
    ensures userId in old(db.users) ==>
      var u := old(db.users)[userId];
      && tokens == Some(issued)
      && db.users == old(db.users)[userId := u.(refreshToken := Next(u.refreshToken, LoggedIn(issued.refresh)))]
  {
    if userId !in db.users {
      return None;
    }
    var user := db.users[userId];
    db.users := db.users[userId := user.(refreshToken := Some(issued.refresh))];
    tokens := Some(issued);
  }

  /**
    `registerUser`: all three fields are required, neither the username nor
    the email may be in use, and an attached picture must upload. The
    stored password is the bcrypt digest; the reply omits the password and
    the refresh token.
  */
  method RegisterUser(db: Db, bcrypt: Hasher, username: string, email: string, password: string,
                      file: FileUpload, salt: nat)
    returns (r: Reply<PublicUser>)
    requires db.Valid()
    modifies db`users
    ensures db.Valid()
    ensures r.Err? ==> r.status == 400 && db.users == old(db.users)
    ensures r.Ok? <==>
      && Given(username) && Given(email) && Given(password)
      && !LoginTaken(old(db.users), None, username, email)
      && !file.UploadFailed?
    ensures r.Ok? ==>
      && r.status == 201
      && r.body.id !in old(db.users)
      && db.users == old(db.users)[r.body.id := NewUser(username, email, bcrypt.hash(password, salt), ProfilePictureFor(file))]
      && r.body == Redact(r.body.id, db.users[r.body.id])
  {
    if !Given(username) || !Given(email) || !Given(password) {
      return Err(400);
    }
    if LoginTaken(db.users, None, username, email) {
      return Err(400);
    }
    if file.UploadFailed? {
      return Err(400);
    }
    var digest := bcrypt.hash(password, salt);
    var id := NewObjectId(db.users.Keys);
    var user := NewUser(username, email, digest, ProfilePictureFor(file));
    db.users := db.users[id := user];
    r := Ok(201, Redact(id, user));
  }

  /**
    `loginUser`: 400 when a field is missing, 401 when no user has that
    username, 400 when the password does not match; only then are tokens
    issued, and the new refresh token replaces whatever was stored.
  */
  method LoginUser(db: Db, bcrypt: Hasher, username: string, password: string, issued: TokenPair)
    returns (r: Reply<LoginBody>)
    requires db.Valid()
    modifies db`users
    ensures db.Valid()
    ensures r.Err? ==> db.users == old(db.users)
    ensures !Given(username) || !Given(password) ==> r == Err(400)
    ensures Given(username) && Given(password) && !HasUsername(old(db.users), username) ==> r == Err(401)
    ensures forall id | id in old(db.users) && old(db.users)[id].username == username && Given(username) && Given(password) ::
      var u := old(db.users)[id];
      if bcrypt.compare(password, u.password) then
        && r == Ok(200, LoginBody(issued, u))
        && db.users == old(db.users)[id := u.(refreshToken := Next(u.refreshToken, LoggedIn(issued.refresh)))]
      else
        r == Err(400)
  {
    if !Given(username) || !Given(password) {
      return Err(400);
    }
    if !HasUsername(db.users, username) {
      return Err(401);
    }
    var id :| id in db.users && db.users[id].username == username;
    var user := db.users[id];
    if !bcrypt.compare(password, user.password) {
      return Err(400);
    }
    var tokens := GenerateAccessAndRefreshTokens(db, id, issued);
    r := Ok(200, LoginBody(tokens.value, user));
  }

  /** `logoutUser`: clears the stored refresh token of the requesting user. */
  method LogoutUser(db: Db, userId: Id) returns (r: Reply<()>)
    requires db.Valid()
    modifies db`users
    ensures db.Valid()
    ensures userId !in old(db.users) ==> r == Err(401) && db.users == old(db.users)
    ensures userId in old(db.users) ==>
      var u := old(db.users)[userId];
      && r == Ok(200, ())
      && db.users == old(db.users)[userId := u.(refreshToken := Next(u.refreshToken, LoggedOut))]
  {
    if userId !in db.users {
      return Err(401);
    }
    var user := db.users[userId];
    db.users := db.users[userId := user.(refreshToken := None)];
    r := Ok(200, ());
  }

  /**
    `changePassword`: 400 when a field is missing, 401 when the requesting
    user is gone, 400 when the old password does not match; otherwise only
    the stored digest changes (the session is left as it was).
  */
  method ChangePassword(db: Db, bcrypt: Hasher, userId: Id, oldpass: string, newpass: string, salt: nat)
    returns (r: Reply<()>)
    requires db.Valid()
    modifies db`users
    ensures db.Valid()
    ensures r.Err? ==> db.users == old(db.users)
    ensures !Given(oldpass) || !Given(newpass) ==> r == Err(400)
    ensures Given(oldpass) && Given(newpass) && userId !in old(db.users) ==> r == Err(401)
    ensures Given(oldpass) && Given(newpass) && userId in old(db.users) ==>
      var u := old(db.users)[userId];
      if bcrypt.compare(oldpass, u.password) then
        r == Ok(200, ()) && db.users == old(db.users)[userId := u.(password := bcrypt.hash(newpass, salt))]
      else
        r == Err(400)
  {
    if !Given(oldpass) || !Given(newpass) {
      return Err(400);
    }
    if userId !in db.users {
      return Err(401);
    }
    var user := db.users[userId];
    if !bcrypt.compare(oldpass, user.password) {
      return Err(400);
    }
    db.users := db.users[userId := user.(password := bcrypt.hash(newpass, salt))];
    r := Ok(200, ());
  }

  /**
    `refreshAccessToken`: 401 when the requesting user is gone, when no
    token is presented, or when the presented token is not the stored one;
    otherwise the stored token is replaced by the newly issued one (the
    reply carries the updated document).
  */
  method RefreshAccessToken(db: Db, userId: Id, cookie: Option<string>, authorization: Option<string>, issued: TokenPair)
    returns (r: Reply<User>)
    requires db.Valid()
    modifies db`users
    ensures db.Valid()
    ensures r.Err? ==> r.status == 401 && db.users == old(db.users)
    ensures userId !in old(db.users) ==> r.Err?
    ensures userId in old(db.users) ==>
      var u := old(db.users)[userId];
      var presented := PresentedToken(cookie, authorization);
      && (r.Ok? <==> Accepts(u.refreshToken, presented))
      && db.users == old(db.users)[userId := u.(refreshToken := Next(u.refreshToken, Refreshed(presented, issued.refresh)))]
      && (r.Ok? ==> r.status == 200 && r.body == db.users[userId])
  {
    if userId !in db.users {
      return Err(401);
    }
    var user := db.users[userId];
    var presented := PresentedToken(cookie, authorization);
    if presented.None? || presented.value == "" {
      return Err(401);
    }
    if user.refreshToken != presented {
      return Err(401);
    }
    user := user.(refreshToken := Some(issued.refresh));
    db.users := db.users[userId := user];
    r := Ok(200, user);
  }

  /**
    The checks `updateUserDetails` makes before reading the store: at least
    one field, a username of at least 3 code units, an email the pattern
    accepts, and a bio of at most 200 code units.
  */
  predicate DetailsAcceptable(username: string, email: string, bio: string) {
    && (Given(username) || Given(email) || Given(bio))
    && (!Given(username) || Utf16Length(username) >= 3)
    && (!Given(email) || EmailPattern(email))
    && (!Given(bio) || Utf16Length(bio) <= 200)
  }

  /** The bio limit is inclusive: 200 code units pass, 201 do not. */
  lemma BioLimitIsInclusive(bio: string)
    requires forall i | 0 <= i < |bio| :: bio[i] as int <= 0xFFFF
    ensures |bio| == 200 ==> DetailsAcceptable("", "", bio)
    ensures |bio| == 201 ==> !DetailsAcceptable("", "", bio)
  {
    Utf16LengthOfBmpText(bio);
  }

  /** The user with each supplied field replaced. */
  function WithDetails(u: User, username: string, email: string, bio: string): User {
    u.(username := if Given(username) then username else u.username,
       email := if Given(email) then email else u.email,
       bio := if Given(bio) then bio else u.bio)
  }

  /**
    `updateUserDetails`: 400 when the checks fail, 404 when the user is
    gone, 500 when the unique index on username or email rejects the save;
    otherwise exactly the supplied fields change.
  */
  method UpdateUserDetails(db: Db, userId: Id, username: string, email: string, bio: string)
    returns (r: Reply<User>)
    requires db.Valid()
    modifies db`users
    ensures db.Valid()
    ensures r.Err? ==> db.users == old(db.users)
    ensures !DetailsAcceptable(username, email, bio) ==> r == Err(400)
    ensures DetailsAcceptable(username, email, bio) && userId !in old(db.users) ==> r == Err(404)
    ensures DetailsAcceptable(username, email, bio) && userId in old(db.users) ==>
      var u := old(db.users)[userId];
      var updated := WithDetails(u, username, email, bio);
      if LoginTaken(old(db.users), Some(userId), updated.username, updated.email) then
        r == Err(500)
      else
        r == Ok(200, updated) && db.users == old(db.users)[userId := updated]
  {
    if !Given(username) && !Given(email) && !Given(bio) {
      return Err(400);
    }
    if Given(username) && Utf16Length(username) < 3 {
      return Err(400);
    }
    if Given(email) && !EmailPattern(email) {
      return Err(400);
    }
    if Given(bio) && Utf16Length(bio) > 200 {
      return Err(400);
    }
    if userId !in db.users {
      return Err(404);
    }
    var user := db.users[userId];
    if Given(username) { user := user.(username := username); }
    if Given(email) { user := user.(email := email); }
    if Given(bio) { user := user.(bio := bio); }
    if LoginTaken(db.users, Some(userId), user.username, user.email) {
      return Err(500);
    }
    db.users := db.users[userId := user];
    r := Ok(200, user);
  }

  /**
    `followUser`: 400 without a target id, 404 when the target or the
    requesting user is gone, 400 when the requesting user already follows
    the target; otherwise one entry is pushed on each side.
  */
  method FollowUser(db: Db, userId: Id, followUserId: Id) returns (r: Reply<()>)
    requires db.Valid()
    modifies db`users
    ensures db.Valid()
    ensures r.Err? ==> db.users == old(db.users)
    ensures !Given(followUserId) ==> r == Err(400)
    ensures Given(followUserId) && followUserId !in old(db.users) ==> r == Err(404)
    ensures Given(followUserId) && followUserId in old(db.users) && userId !in old(db.users) ==> r == Err(404)
    ensures Given(followUserId) && followUserId in old(db.users) && userId in old(db.users) ==>
      var u := old(db.users)[userId];
      var target := old(db.users)[followUserId];
      if Lists(u.following, followUserId) then
        r == Err(400)
      else
        var once := old(db.users)[userId := u.(following := u.following + [EntryFor(followUserId, target)])];
        && r == Ok(200, ())
        && db.users == once[followUserId := once[followUserId].(followers := once[followUserId].followers + [EntryFor(userId, u)])]
  {
    if !Given(followUserId) {
      return Err(400);
    }
    if followUserId !in db.users {
      return Err(404);
    }
    var userToFollow := db.users[followUserId];
    if userId !in db.users {
      return Err(404);
    }
    var user := db.users[userId];
    if Lists(user.following, followUserId) {
      return Err(400);
    }
    var following := user.following + [EntryFor(followUserId, userToFollow)];
    FollowKeepsDistinct(user.following, EntryFor(followUserId, userToFollow));
    UpdateKeepsValidUsers(db.users, userId, user.(following := following));
    db.users := db.users[userId := user.(following := following)];
    var followed := db.users[followUserId];
    UpdateKeepsValidUsers(db.users, followUserId, followed.(followers := followed.followers + [EntryFor(userId, user)]));
    db.users := db.users[followUserId := followed.(followers := followed.followers + [EntryFor(userId, user)])];
    r := Ok(200, ());
  }

  /**
    `unfollowUser`: 400 without a target id, 404 when the target or the
    requesting user is gone; otherwise the target leaves the requesting
    user's `following` and the requesting user leaves the target's
    `followers`.
  */
  method UnfollowUser(db: Db, userId: Id, unfollowUserId: Id) returns (r: Reply<()>)
    requires db.Valid()
    modifies db`users
    ensures db.Valid()
    ensures r.Err? ==> db.users == old(db.users)
    ensures !Given(unfollowUserId) ==> r == Err(400)
    ensures Given(unfollowUserId) && unfollowUserId !in old(db.users) ==> r == Err(404)
    ensures Given(unfollowUserId) && unfollowUserId in old(db.users) && userId !in old(db.users) ==> r == Err(404)
    ensures Given(unfollowUserId) && unfollowUserId in old(db.users) && userId in old(db.users) ==>
      var u := old(db.users)[userId];
      var once := old(db.users)[userId := u.(following := Unlist(u.following, unfollowUserId))];
      && r == Ok(200, ())
      && db.users == once[unfollowUserId := once[unfollowUserId].(followers := Unlist(once[unfollowUserId].followers, userId))]
  {
    if !Given(unfollowUserId) {
      return Err(400);
    }
    if unfollowUserId !in db.users {
      return Err(404);
    }
    if userId !in db.users {
      return Err(404);
    }
    var user := db.users[userId];
    UnlistKeepsDistinct(user.following, unfollowUserId);
    UpdateKeepsValidUsers(db.users, userId, user.(following := Unlist(user.following, unfollowUserId)));
    db.users := db.users[userId := user.(following := Unlist(user.following, unfollowUserId))];
    var unfollowed := db.users[unfollowUserId];
    UpdateKeepsValidUsers(db.users, unfollowUserId, unfollowed.(followers := Unlist(unfollowed.followers, userId)));
    db.users := db.users[unfollowUserId := unfollowed.(followers := Unlist(unfollowed.followers, userId))];
    r := Ok(200, ());
  }
}
