/**
  The posts controller: creating, listing (newest first, one page at a
  time), updating and deleting posts, the like counter, and comments.
  Handlers that change a post either rewrite it in place in the posts
  collection or remove it; on an error the collection is left as it was.
*/
module Posts {
  import opened Common
  import opened Models
  import opened Queries

  /** `postImageUrl || null`: the uploaded URL when it is truthy. */
  function ImageFor(file: FileUpload): Option<string> {
    if file.Uploaded? && file.url != "" then Some(file.url) else None
  }

  /**
    `createPost`: 400 when there is neither a description nor a file, 500
    when the file does not upload; otherwise a new post by the requesting
    user, with no likes and no comments, is added to the collection.
  */
  method CreatePost(db: Db, userId: Id, description: string, file: FileUpload, now: nat) returns (r: Reply<Post>)
    requires db.Valid()
    modifies db`posts
    ensures db.Valid()
    ensures r.Err? ==> db.posts == old(db.posts)
    ensures !Given(description) && file.NoFile? ==> r == Err(400)
    ensures (Given(description) || !file.NoFile?) && file.UploadFailed? ==> r == Err(500)
    ensures r.Ok? <==> (Given(description) || !file.NoFile?) && !file.UploadFailed?
    ensures r.Ok? ==>
      && r.status == 201
      && r.body.id !in IdsOf(old(db.posts), PostId) && Given(r.body.id)
      && r.body == Post(r.body.id, userId, description, ImageFor(file), 0, [], now)
      && db.posts == old(db.posts) + [r.body]
  {
    if !Given(description) && file.NoFile? {
      return Err(400);
    }
    if file.UploadFailed? {
      return Err(500);
    }
    var id := NewObjectId(IdsOf(db.posts, PostId));
    var post := Post(id, userId, description, ImageFor(file), 0, [], now);
    db.posts := db.posts + [post];
    r := Ok(201, post);
  }

  /** The posts ordered by `sort({ createdAt: -1 })`. */
  function NewestFirst(posts: seq<Post>): (r: seq<Post>)
    ensures Sorted(r, PostCreatedAt, false)
    ensures multiset(r) == multiset(posts)
    ensures |r| == |posts|
  {
    SortBy(posts, PostCreatedAt, false)
  }

  function PostCreatedAt(p: Post): int { p.createdAt }

  /**
    How many documents `.limit(n)` lets through: all of them for 0, and
    the magnitude of a negative limit.
  */
  function LimitCount(n: int, available: nat): nat {
    if n == 0 then available else if n < 0 then -n else n
  }

  /**
    `getAllPosts`: `page` and `limit` default to 1 and 10; the query skips
    `(page - 1) * limit` posts of the newest-first order (a negative skip is
    refused by the database, a 500) and returns at most `limit` of them.
  */
  function GetAllPosts(posts: seq<Post>, page: Option<int>, limit: Option<int>): (r: Reply<seq<Post>>)
    ensures
      var p := if page.Some? then page.value else 1;
      var n := if limit.Some? then limit.value else 10;
      var skip := (p - 1) * n;
      && (skip < 0 <==> r.Err?)
      && (r.Err? ==> r.status == 500)
      && (r.Ok? ==>
            && r.status == 200
            && r.body == Page(NewestFirst(posts), skip, LimitCount(n, |posts|))
            && (n != 0 ==> |r.body| <= (if n < 0 then -n else n))
            && (forall i | 0 <= i < |r.body| :: r.body[i] in posts)
            && Sorted(r.body, PostCreatedAt, false))
  {
    var p := if page.Some? then page.value else 1;
    var n := if limit.Some? then limit.value else 10;
    var skip := (p - 1) * n;
    if skip < 0 then Err(500)
    else
      var all := NewestFirst(posts);
      var window := Page(all, skip, LimitCount(n, |posts|));
      PageKeepsOrder(all, PostCreatedAt, false, skip, LimitCount(n, |posts|));
      forall i | 0 <= i < |window|
        ensures window[i] in posts
      {
        assert window[i] in multiset(all);
      }
      Ok(200, window)
  }

  /**
    `updatePost`: 400 without a description, 404 when the post is missing,
    403 when the requesting user did not post it, 500 when a new image does
    not upload; otherwise the description is replaced, and the image too
    when an upload returned a URL.
  */
  method UpdatePost(db: Db, userId: Id, postId: Id, description: string, file: FileUpload) returns (r: Reply<Post>)
    requires db.Valid()
    modifies db`posts
    ensures db.Valid()
    ensures r.Err? ==> db.posts == old(db.posts)
    ensures !Given(description) ==> r == Err(400)
    ensures Given(description) && IndexOf(old(db.posts), PostId, postId).None? ==> r == Err(404)
    ensures Given(description) && IndexOf(old(db.posts), PostId, postId).Some? ==>
      var i := IndexOf(old(db.posts), PostId, postId).value;
      var p := old(db.posts)[i];
      if p.postedBy != userId then r == Err(403)
      else if file.UploadFailed? then r == Err(500)
      else
        var updated := p.(postDescription := description,
                          postImage := if ImageFor(file).Some? then ImageFor(file) else p.postImage);
        r == Ok(200, updated) && db.posts == old(db.posts)[i := updated]
  {
    if !Given(description) {
      return Err(400);
    }
    var found := IndexOf(db.posts, PostId, postId);
    if found.None? {
      return Err(404);
    }
    var i := found.value;
    var post := db.posts[i];
    if post.postedBy != userId {
      return Err(403);
    }
    if file.UploadFailed? {
      return Err(500);
    }
    var image := ImageFor(file);
    if image.Some? {
      post := post.(postImage := image);
    }
    post := post.(postDescription := description);
    db.posts := db.posts[i := post];
    r := Ok(200, post);
  }

  /**
    `deletePost`: 400 without a post id, 404 when the post is missing, 403
    when the requesting user did not post it; otherwise exactly that post
    leaves the collection.
  */
  method DeletePost(db: Db, userId: Id, postId: Id) returns (r: Reply<()>)
    requires db.Valid()
    modifies db`posts
    ensures db.Valid()
    ensures r.Err? ==> db.posts == old(db.posts)
    ensures !Given(postId) ==> r == Err(400)
    ensures Given(postId) && IndexOf(old(db.posts), PostId, postId).None? ==> r == Err(404)
    ensures Given(postId) && IndexOf(old(db.posts), PostId, postId).Some? ==>
      var i := IndexOf(old(db.posts), PostId, postId).value;
      if old(db.posts)[i].postedBy != userId then r == Err(403)
      else
        && r == Ok(200, ())
        && db.posts == RemoveAt(old(db.posts), i)
        && IdsOf(db.posts, PostId) == IdsOf(old(db.posts), PostId) - {postId}
  {
    if !Given(postId) {
      return Err(400);
    }
    var found := IndexOf(db.posts, PostId, postId);
    if found.None? {
      return Err(404);
    }
    if db.posts[found.value].postedBy != userId {
      return Err(403);
    }
    RemoveAtKeepsUnique(db.posts, PostId, found.value);
    db.posts := RemoveAt(db.posts, found.value);
    r := Ok(200, ());
  }

  /**
    `likePost` as written: 404 when the post is missing; otherwise the
    handler reads an undeclared `userId` and throws, which reaches the
    client as a 500. Nothing is ever stored.
  */
  method LikePost(db: Db, postId: Id) returns (r: Reply<()>)
    ensures IndexOf(db.posts, PostId, postId).None? ==> r == Err(404)
    ensures IndexOf(db.posts, PostId, postId).Some? ==> r == Err(500)
  {
    var found := IndexOf(db.posts, PostId, postId);
    if found.None? {
      return Err(404);
    }
    r := Err(500);
  }

  /**
    `unlikePost`: 404 when the post is missing; a positive like count goes
    down by one, a zero count stays zero.
  */
  method UnlikePost(db: Db, postId: Id) returns (r: Reply<()>)
    requires db.Valid()
    modifies db`posts
    ensures db.Valid()
    ensures IndexOf(old(db.posts), PostId, postId).None? ==> r == Err(404) && db.posts == old(db.posts)
    ensures IndexOf(old(db.posts), PostId, postId).Some? ==>
      var i := IndexOf(old(db.posts), PostId, postId).value;
      var p := old(db.posts)[i];
      && r == Ok(200, ())
      && db.posts == if p.likes > 0 then old(db.posts)[i := p.(likes := p.likes - 1)] else old(db.posts)
  {
    var found := IndexOf(db.posts, PostId, postId);
    if found.None? {
      return Err(404);
    }
    var post := db.posts[found.value];
    if post.likes > 0 {
      db.posts := db.posts[found.value := post.(likes := post.likes - 1)];
    }
    r := Ok(200, ());
  }

  function CommentId(c: Comment): Id { c.id }

  /**
    `commentOnPost`: 400 for an empty comment or a missing post id, 404
    when the post is missing; otherwise one comment by the requesting user
    is appended and the earlier comments stay as they were. The reply
    carries the post's comments.
  */
  method CommentOnPost(db: Db, userId: Id, postId: Id, comment: string, now: nat) returns (r: Reply<seq<Comment>>)
    requires db.Valid()
    modifies db`posts
    ensures db.Valid()
    ensures r.Err? ==> db.posts == old(db.posts)
    ensures !Given(comment) ==> r == Err(400)
    ensures Given(comment) && !Given(postId) ==> r == Err(400)
    ensures Given(comment) && Given(postId) && IndexOf(old(db.posts), PostId, postId).None? ==> r == Err(404)
    ensures Given(comment) && Given(postId) && IndexOf(old(db.posts), PostId, postId).Some? ==>
      var i := IndexOf(old(db.posts), PostId, postId).value;
      var p := old(db.posts)[i];
      && r.Ok? && r.status == 200
      && |r.body| == |p.comments| + 1
      && r.body[..|p.comments|] == p.comments
      && var added := r.body[|p.comments|];
      && added == Comment(added.id, userId, comment, now)
      && added.id !in IdsOf(p.comments, CommentId)
      && db.posts == old(db.posts)[i := p.(comments := r.body)]
  {
    if !Given(comment) {
      return Err(400);
    }
    if !Given(postId) {
      return Err(400);
    }
    var found := IndexOf(db.posts, PostId, postId);
    if found.None? {
      return Err(404);
    }
    var post := db.posts[found.value];
    var id := NewObjectId(IdsOf(post.comments, CommentId));
    var comments := post.comments + [Comment(id, userId, comment, now)];
    assert comments[..|post.comments|] == post.comments;
    db.posts := db.posts[found.value := post.(comments := comments)];
    r := Ok(200, comments);
  }

  /** `comments.filter(c => c._id.toString() !== commentId)`. */
  function WithoutComment(comments: seq<Comment>, commentId: Id): (r: seq<Comment>)
    ensures forall i | 0 <= i < |r| :: r[i].id != commentId && r[i] in comments
    ensures forall i | 0 <= i < |comments| && comments[i].id != commentId :: comments[i] in r
  {
    var kept := Filter(comments, (c: Comment) => c.id != commentId);
    assert forall i | 0 <= i < |kept| :: kept[i] in kept;
    kept
  }

  /**
    With ids distinct, deleting a comment removes exactly that comment and
    keeps the others in their order.
  */
  lemma WithoutCommentRemovesExactlyIt(before: seq<Comment>, c: Comment, after: seq<Comment>)
    requires forall i | 0 <= i < |before| :: before[i].id != c.id
    requires forall i | 0 <= i < |after| :: after[i].id != c.id
    ensures WithoutComment(before + [c] + after, c.id) == before + after
  {
    FilterDropsOne(before, c, after, (x: Comment) => x.id != c.id);
  }

  /**
    `deleteComment`: 404 when the post or the comment is missing, 403 when
    the first comment with that id is not the requesting user's; otherwise
    the comments with that id are removed and the rest keep their order.
  */
  method DeleteComment(db: Db, userId: Id, postId: Id, commentId: Id) returns (r: Reply<()>)
    requires db.Valid()
    modifies db`posts
    ensures db.Valid()
    ensures r.Err? ==> db.posts == old(db.posts)
    ensures IndexOf(old(db.posts), PostId, postId).None? ==> r == Err(404)
    ensures IndexOf(old(db.posts), PostId, postId).Some? ==>
      var i := IndexOf(old(db.posts), PostId, postId).value;
      var p := old(db.posts)[i];
      var found := IndexOf(p.comments, CommentId, commentId);
      if found.None? then r == Err(404)
      else if p.comments[found.value].userId != userId then r == Err(403)
      else r == Ok(200, ()) && db.posts == old(db.posts)[i := p.(comments := WithoutComment(p.comments, commentId))]
  {
    var found := IndexOf(db.posts, PostId, postId);
    if found.None? {
      return Err(404);
    }
    var post := db.posts[found.value];
    var at := IndexOf(post.comments, CommentId, commentId);
    if at.None? {
      return Err(404);
    }
    if post.comments[at.value].userId != userId {
      return Err(403);
    }
    db.posts := db.posts[found.value := post.(comments := WithoutComment(post.comments, commentId))];
    r := Ok(200, ());
  }
}
