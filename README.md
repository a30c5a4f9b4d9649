# Social-media backend: a verified model of the controllers

This project models the business rules of an Express/MongoDB social-media
backend: its user, post, message, admin and report controllers. Each request
handler that changes the database becomes a Dafny method over one database
object, `Models.Db`. The four read-only queries (`Posts.GetAllPosts`,
`Messages.GetMessages`, `Messages.GetUserMessages` and `Admin.GetAllUsers`)
become functions over the collection they read. The database has four
collections:

- users and reports, as maps from id to record;
- posts and messages, as sequences in insertion order, because their queries sort them and a map has no order to break ties with.

Each handler does one of two things:

- it returns the status of the error the source throws (an `ApiError`'s own status, otherwise the 500 that Express's default error handler sends), and leaves every collection as it was;
- it makes the change the source saves, and returns the status and payload the source sends.

The database invariant `Db.Valid` is preserved by every handler. It says:

- no two users share a username or an email (two of the schema's unique indexes; the one on `password` is left out, see below);
- no `following` list names a user twice;
- post ids and message ids are distinct;
- no post has a negative like count.

The session-token rules live in module `Session` as a small state machine over
the one refresh token a user record stores:

- login stores a newly issued token;
- a refresh that presents exactly the stored token replaces it;
- logout clears it.

The lemmas there show:

- a replaced or cleared token stays rejected;
- after a logout every refresh fails until the next login;
- with nothing stored, no refresh attempt is ever accepted.

`Scenarios` chains handlers on one database:

- register then log in;
- rotate a token, then replay the old one;
- log out, then refresh;
- create a post, then delete it;
- mark a message read twice.

Collaborators are parameters:

- Password hashing is a `Session.Hasher` holding a `hash` function (`bcrypt.hash`) and a `compare` function (the user document's `isPasswordCorrect`). The only thing assumed of it is `Sound`: a password matches its own digest. That assumption appears only where a scenario needs it.
- The JWT signer's output is a `Session.TokenPair` argument. Nothing assumes two issued tokens differ.
- An image upload's outcome is a `Common.FileUpload` argument.
- The clock is a `now: nat` argument.
- The requesting user's id (set by the authentication middleware) is an argument.
- New document ids come from `Common.NewObjectId`, which picks an id not in use.

Request-body fields are strings, and the empty string stands for a missing
(falsy) field.

JavaScript string semantics are modelled where the handlers depend on them:

- `length` counts UTF-16 code units;
- `\s` matches JavaScript's whitespace set;
- the email test `/\S+@\S+\.\S+/` is unanchored;
- `String.prototype.replace` with a string pattern replaces only the first occurrence.

## Model

| member | source | states |
|---|---|---|
| Users.GenerateAccessAndRefreshTokens | controllers/user.controller.js:10-21 | a missing user yields nothing; otherwise the issued pair is returned and only that user's stored refresh token changes, to the issued one |
| Users.RegisterUser | controllers/user.controller.js:23-60 | returns 400 (store unchanged) exactly when a field is missing, the username or email is taken, or the upload fails. Otherwise it returns 201 and stores one new user under an unused id, with the bcrypt digest and the default picture when no URL came back. The reply omits password and refresh token |
| Users.LoginUser | controllers/user.controller.js:62-89 | 400 on a missing field, 401 for an unknown username, 400 on a wrong password, store unchanged on each. On success: 200 with the issued tokens, and the user's stored token becomes the issued refresh token; nothing else changes |
| Users.LogoutUser | controllers/user.controller.js:91-112 | 401 for a missing user; otherwise the stored refresh token is cleared and nothing else changes |
| Users.ChangePassword | controllers/user.controller.js:114-134 | 400 on a missing field, 401 for a missing user, 400 on a wrong old password, store unchanged on each. Otherwise only the password changes, to the digest of the new one |
| Users.RefreshAccessToken | controllers/user.controller.js:156-186 | every error is 401 and leaves the store unchanged. Success happens exactly when the presented token (cookie first, else the Bearer header) is non-empty and equals the stored one; the stored token then becomes the newly issued one |
| Users.UpdateUserDetails | controllers/user.controller.js:188-212 | 400 when no field is given, the username is under 3 code units, the email fails the pattern or the bio exceeds 200 code units. 404 for a missing user; 500 when the unique indexes reject the save. Otherwise exactly the supplied fields change |
| Users.BioLimitIsInclusive | controllers/user.controller.js:200-202 | a 200-unit bio passes the check, a 201-unit bio does not |
| Users.FollowUser | controllers/user.controller.js:224-261 | 400 without a target, 404 for a missing target or requester, 400 when the requester already follows the target (intended guard). Otherwise one entry is pushed on the requester's `following` and one on the target's `followers`, and nothing else changes |
| Users.UnfollowUser | controllers/user.controller.js:263-288 | 400 without a target, 404 for a missing target or requester. Otherwise the target leaves the requester's `following` and the requester leaves the target's `followers` (intended filters) |
| Follows.ToString | controllers/user.controller.js:281-282 | the string form of a list entry starts with `{` |
| Follows.DuplicateFollowAsWritten | controllers/user.controller.js:250-254 | as written, for any `following` list and any id `b` not starting with `{`, the duplicate guard (loose `==` against each entry) does not fire; when the list already names `b`, the push breaks the no-duplicate-follows invariant |
| Follows.UnfollowAsWrittenKeepsAll | controllers/user.controller.js:281 | as written, the `following` filter removes nothing for any id that does not start with `{` |
| Follows.FollowersFilterAsWrittenKeepsAll | controllers/user.controller.js:282 | as written, the `followers` filter removes nothing |
| Follows.Unlist | controllers/user.controller.js:281-282 | intended filter: the result no longer lists the id, keeps every other entry, and adds nothing |
| Follows.FollowKeepsDistinct | controllers/user.controller.js:250-254 | with the intended guard, a push keeps the list free of duplicates |
| Follows.UnlistKeepsDistinct | controllers/user.controller.js:281 | the intended filter keeps the list free of duplicates |
| Follows.FollowThenUnfollow | controllers/user.controller.js:254-281 | unfollowing right after following restores the previous `following` list |
| Session.PresentedToken | controllers/user.controller.js:162 | a truthy cookie wins; with no cookie and no header nothing is presented |
| Session.BearerHeaderYieldsToken | controllers/user.controller.js:162 | a header `Bearer <t>` presents exactly `t` |
| Session.ReplaceFirstAbsent | controllers/user.controller.js:162 | a header without `Bearer ` is presented as it is |
| Session.RevokedStaysRevoked | controllers/user.controller.js:166-171 | a token no longer stored is never stored or accepted again unless the signer issues it again |
| Session.LogoutRevokesAll | controllers/user.controller.js:97-167 | after a logout, any series of refresh attempts leaves nothing stored |
| Session.RefreshAttemptsKeepNone | controllers/user.controller.js:166-167 | with nothing stored, no refresh attempt is accepted |
| Session.RotationRejectsReplay | controllers/user.controller.js:166-171 | after a rotation to a different token, the old token is rejected |
| Text.Utf16Length | controllers/user.controller.js:194-200 | the UTF-16 length lies between the character count and twice it |
| Text.Utf16LengthOfBmpText | controllers/user.controller.js:194-200 | text inside the Basic Multilingual Plane has one code unit per character |
| Text.EmailPatternUnanchored | controllers/user.controller.js:197 | text added around an accepted address never makes the test fail |
| Text.EmailPatternNeedsAtThenDot | controllers/user.controller.js:197 | an accepted string holds an `@` followed later by a `.` |
| Text.EmailPatternAcceptsSpaces | controllers/user.controller.js:197 | `"a b@c.d"` passes |
| Text.EmailPatternRejectsEmptyDomain | controllers/user.controller.js:197 | `"a@.b"` fails |
| Posts.CreatePost | controllers/posts.controller.js:9-33 | 400 with neither text nor file, 500 when the upload fails. Otherwise 201 and one new post is appended: posted by the requester, with the given text, image null unless an upload returned a URL, no likes, no comments |
| Posts.NewestFirst | controllers/posts.controller.js:40 | sorted by creation time descending, and a permutation of the posts |
| Posts.GetAllPosts | controllers/posts.controller.js:35-45 | page 1 and limit 10 by default; 500 exactly when the skip `(page-1)*limit` is negative. Otherwise the reply is that window of the newest-first order, every post in it a stored post, sorted newest first. A non-zero `limit` caps the reply at `|limit|` posts (MongoDB reads a negative limit as its absolute value); a `limit` of 0 sets no cap |
| Posts.UpdatePost | controllers/posts.controller.js:56-86 | 400 without a description, 404 for a missing post, 403 for a non-author, 500 when the upload fails, post unchanged on each. Otherwise only the description changes, plus the image when an upload returned a URL |
| Posts.DeletePost | controllers/posts.controller.js:88-103 | 400 without an id, 404 for a missing post, 403 for a non-author, collection unchanged on each. Otherwise exactly that post is removed |
| Posts.LikePost | controllers/posts.controller.js:105-117 | 404 for a missing post, otherwise 500 |
| Posts.UnlikePost | controllers/posts.controller.js:119-130 | 404 for a missing post; a positive count drops by one, a zero count stays zero, nothing else changes |
| Posts.CommentOnPost | controllers/posts.controller.js:132-153 | 400 for an empty comment or missing post id, 404 for a missing post, unchanged on each. Otherwise exactly one comment by the requester is appended; the earlier comments stay as they were |
| Posts.WithoutComment | controllers/posts.controller.js:169 | keeps exactly the comments whose id differs |
| Posts.WithoutCommentRemovesExactlyIt | controllers/posts.controller.js:169 | with distinct ids, deleting a comment removes just it and keeps the others in order |
| Posts.DeleteComment | controllers/posts.controller.js:155-172 | 404 for a missing post or comment, 403 when the comment is not the requester's, unchanged on each. Otherwise the comments with that id are removed |
| Messages.SendMessage | controllers/messages.controller.js:8-19 | 400 with nothing stored exactly when a field is missing; otherwise 201 and one unread message is appended |
| Messages.GetMessages | controllers/messages.controller.js:21-33 | 400 exactly when a user is missing. Otherwise the reply holds exactly the messages between the two users, in either direction, each as often as it is stored, oldest first |
| Messages.GetMessagesSymmetric | controllers/messages.controller.js:26-31 | swapping the two users gives the same reply |
| Messages.GetUserMessages | controllers/messages.controller.js:53-59 | exactly the messages the user sent or received, each as often as it is stored, newest first |
| Messages.ConversationInInbox | controllers/messages.controller.js:26-57 | every message of a conversation is in both users' inboxes |
| Messages.DeleteMessage | controllers/messages.controller.js:35-51 | 400 on a missing field, 404 for a missing message, 403 when the sender differs, unchanged on each. Otherwise exactly that message is removed |
| Messages.MarkMessageAsRead | controllers/messages.controller.js:61-70 | 404 for a missing message; otherwise only its read flag is set, and marking a read message changes nothing |
| Admin.GetAllUsers | controllers/admin.controller.js:13-16 | one entry per stored user, holding each field except the password; the refresh token is included |
| Admin.DeleteUser | controllers/admin.controller.js:18-26 | 404 for a missing user; otherwise exactly that user is removed and all others remain |
| Admin.DeletePost | controllers/admin.controller.js:33-41 | 404 for a missing post; otherwise exactly that post is removed, with no ownership check |
| Admin.ResolveReport | controllers/admin.controller.js:48-57 | 404 for a missing report; otherwise only that report's status becomes resolved, and resolving twice changes nothing |
| Reports.ReportItem | controllers/report.controller.js:6-18 | 400 on a missing field and 500 on an item type the schema rejects, nothing stored on either. Otherwise 201 and a pending report by the requester, with the item, type and reason as given, is stored under a new id |
| Models.ParseItemType | models/report.models.js:13-17 | only `user`, `post` and `comment` are admitted, each to its own type |
| Models.IndexOf | controllers/posts.controller.js:63 | `findById`: the first document with the id, or none exactly when no document has it |
| Models.RemoveAtKeepsUnique | controllers/posts.controller.js:101 | removing one document keeps ids distinct and drops exactly its id |
| Common.NewObjectId | controllers/posts.controller.js:26-30 | a new document gets a non-empty id no document of its collection has |
| Queries.Filter | controllers/messages.controller.js:26-30 | a value is in the result exactly when it is in the input and the condition selects it, and the result is no longer than the input |
| Queries.FilterCount | controllers/messages.controller.js:26-30 | each selected element occurs in the result as often as in the input, and an unselected one not at all |
| Queries.FilterCons | controllers/posts.controller.js:169 | a selected first element stays first, and an unselected one is dropped |
| Queries.FilterAppend | controllers/posts.controller.js:169 | filtering a concatenation filters each part in turn; with FilterCons this fixes the order of the result to the input order |
| Queries.SortBy | controllers/messages.controller.js:31 | the result is sorted by the key in the requested direction and is a permutation of the input |
| Queries.SortByMembers | controllers/messages.controller.js:31 | sorting keeps exactly the elements it was given |
| Queries.Page | controllers/posts.controller.js:41-42 | `skip`/`limit`: at most `count` elements, taken in order from position `skip` |
| Queries.PageKeepsOrder | controllers/posts.controller.js:40-42 | a page of a sorted list is sorted |
| Scenarios.RegisterThenLogin | controllers/user.controller.js:23-89 | with a sound hasher, logging in right after a successful registration succeeds with the issued tokens |
| Scenarios.RotationRevokesOldToken | controllers/user.controller.js:62-186 | after login and one rotation, replaying the first refresh token gets 401, and the rotated token stays stored |
| Scenarios.LogoutRevokes | controllers/user.controller.js:91-186 | after a logout every refresh gets 401 |
| Scenarios.CreateThenDeletePost | controllers/posts.controller.js:9-103 | an author creating and deleting a post leaves the posts as they were |
| Scenarios.MarkReadTwice | controllers/messages.controller.js:61-70 | marking a message read twice gives the same reply and the message is read |

## Left out

- Authentication and admin gates: the middleware that checks JWTs and admin rights is not part of this model. The requesting user's id is a parameter.
- bcrypt and JWT internals:
  - `hash`/`compare` and the token pair are parameters;
  - the token signer's failure path (the 500 at controllers/user.controller.js:18-19) is not modelled, because signing is assumed to succeed.
- Image upload, file system, database connection, cookies and Express routing:
  - an upload is one of no file, an uploaded URL, or a failure;
  - cookies appear only as the presented refresh token.
- The user handlers `changeProfilePicture`, `getCurrentUser`, `getFollowers`, `deleteUserAccount` and `searchUsers`, the post handler `getPostById`, and the admin handlers `getAllPosts` and `getAllReports` are not part of this model.
- Mongoose specifics:
  - `populate`/`select` projections on post and report listings;
  - ObjectId casting of malformed ids (a CastError);
  - the schema's `trim`/`lowercase` setters;
  - the `required` constraints on post fields;
  - the registration re-fetch failure (500, controllers/user.controller.js:53-55).
- Schema mismatches: the handlers write fields the schemas do not declare, and strict mode would drop them. These are `refreshToken`, `profilePicture` and `bio` on users, and `readStatus` on messages. The model follows the handlers' intended record shape.
- Posts.DeletePost: removal is modelled as intended. `post.remove()` at controllers/posts.controller.js:101 is not a method of current Mongoose documents.
- Posts.LikePost: the handler reads an undeclared `userId` and treats the numeric `likes` as an array, so past the 404 it always fails; no increment is modelled.
- Posts.GetAllPosts: `page` and `limit` are modelled as integers or absent. String-to-number coercion of query parameters (NaN, fractions) is left out, and a negative skip is taken to be rejected as a 500.
- Admin.GetAllUsers: the reply is modelled as a map keyed by id. The order in which `find()` returns users is left out.
- Admin.DeleteUser: follow entries naming the deleted user, and the user's posts and messages, stay in place, as in the source. No cascading is modelled because the source has none.
- Users.FollowUser: the source loads the requester and the target as two separate documents. When a user follows themself, the two saves could overwrite each other; the model applies both pushes.
- Concurrency: concurrent requests and races between a read and its save are left out; the model is sequential.
- The user model defines no `isPasswordCorrect`, `generateAccessToken` or `generateRefreshToken` method (models/user.models.js), so as written the login, password-change (controllers/user.controller.js:124), refresh and token-issuing paths would throw a TypeError and answer 500. The model treats these methods as existing: `Hasher.compare` stands for `isPasswordCorrect`, and the issued `TokenPair` for the two generators.
- Posts.GetAllPosts, Messages.GetMessages and Messages.GetUserMessages: MongoDB leaves the order of documents with equal `createdAt` unspecified. The model breaks such ties by insertion order, which is its own choice; the sortedness, membership and count clauses do not depend on it.
- The unique index on `password` (models/user.models.js:18-23) is left out. With it, a registration or password change whose digest equals a stored digest would fail with a duplicate-key error; bcrypt's random salt makes this practically impossible.
- The user schema's `posts` array and the `createdAt`/`updatedAt` fields that `timestamps: true` adds to users and posts are not part of `Models.User`; no modelled handler reads or writes them.
- Timestamps are supplied as `now`, and the `updatedAt` field that `timestamps: true` adds to messages is left out.

## Findings

| source | as written | input that shows it | evidently intended | confidence | as-written member | corrected member |
|---|---|---|---|---|---|---|
| controllers/user.controller.js:250 | `user.following.includes(followUserId)` compares stored entry objects with a string id by loose `==`. An entry converts to a string starting with `{`, so the guard never fires for an ObjectId. The guard as written is `Follows.IncludesAsWritten` | a user whose `following` already holds the entry for `b` follows `b` again: the guard passes and a second entry is pushed | reject with 400 when some entry's `userId` is the target | not executed | Follows.DuplicateFollowAsWritten | Follows.FollowKeepsDistinct |
| controllers/user.controller.js:281-282 | the unfollow filters compare `id.toString()` of an entry object, which renders as `{ userId: … }`, with the target id, and the second filter compares it with an ObjectId. Nothing is ever removed. The filters as written are `Follows.UnfollowFilterAsWritten` and `Follows.FollowersFilterAsWritten` | any unfollow of a followed user: both lists come back unchanged | remove the entries whose `userId` is the other user | not executed | Follows.UnfollowAsWrittenKeepsAll | Follows.Unlist |
