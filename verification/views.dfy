/** The read endpoints: the post feed, the comments of one post and a user's
    public profile. None of them changes the store or the session.
 */
module Views {
  import opened Tables
  import opened Http
  import opened Accounts

  /** The row `JOIN users ON ... = users.id` pairs with an author id. */
  function FindUserById(users: seq<User>, id: int): Option<nat> {
    FindFirst(users, (u: User) => u.id == id)
  }

  /** The inner join keeps only rows whose author has a user row. */
  predicate HasAuthor(users: seq<User>, userId: int) {
    FindUserById(users, userId).Some?
  }

  /** `posts.*, users.username, users.pfp` for one post of the join. */
  function ViewPost(users: seq<User>, p: Post): PostView
    requires HasAuthor(users, p.userId)
  {
    var author := users[FindUserById(users, p.userId).value];
    PostView(p, author.username, author.pfp)
  }

  /** `comments.*, users.username, users.pfp` for one comment of the join. */
  function ViewComment(users: seq<User>, c: Comment): CommentView
    requires HasAuthor(users, c.userId)
  {
    var author := users[FindUserById(users, c.userId).value];
    CommentView(c, author.username, author.pfp)
  }

  /** `posts JOIN users ON posts.user_id = users.id`, in rowid order. */
  function JoinPosts(posts: seq<Post>, users: seq<User>): seq<PostView> {
    var kept := Filter(posts, (p: Post) => HasAuthor(users, p.userId));
    seq(|kept|, k requires 0 <= k < |kept| => ViewPost(users, kept[k]))
  }

  /** GET /api/posts: the joined posts `ORDER BY posts.id DESC`. With the posts table in
      rowid order the feed is its join read back to front: strictly newest first,
      each row a stored post whose author exists, and every such post present. */
  function ListPosts(s: Store, session: Option<SessionUser>): (r: Reply)
    ensures r.status == StatusOk && r.store == s && r.session == session && r.body.Posts?
    ensures forall k :: 0 <= k < |r.body.feed| ==>
              r.body.feed[k].post in s.posts && HasAuthor(s.users, r.body.feed[k].post.userId)
              && r.body.feed[k] == ViewPost(s.users, r.body.feed[k].post)
    ensures forall k :: 0 <= k < |s.posts| && HasAuthor(s.users, s.posts[k].userId) ==>
              ViewPost(s.users, s.posts[k]) in r.body.feed
  {
    var joined := JoinPosts(s.posts, s.users);
    JoinPostsComplete(s.posts, s.users);
    Reply(StatusOk, Posts(Reverse(joined)), s, session)
  }

  /** Every post with an author shows up in the join, newest-first or not. */
  lemma JoinPostsComplete(posts: seq<Post>, users: seq<User>)
    ensures forall k :: 0 <= k < |posts| && HasAuthor(users, posts[k].userId) ==>
              ViewPost(users, posts[k]) in JoinPosts(posts, users)
              && ViewPost(users, posts[k]) in Reverse(JoinPosts(posts, users))
  {
    var kept := Filter(posts, (p: Post) => HasAuthor(users, p.userId));
    var joined := JoinPosts(posts, users);
    var reversed := Reverse(joined);
    ReverseKeeps(joined);
    forall k | 0 <= k < |posts| && HasAuthor(users, posts[k].userId)
      ensures ViewPost(users, posts[k]) in joined && ViewPost(users, posts[k]) in reversed
    {
      var j :| 0 <= j < |kept| && kept[j] == posts[k];
      assert joined[j] == ViewPost(users, posts[k]);
    }
  }

  /** In a store whose posts ascend by id, the feed's ids strictly descend. */
  lemma {:induction false} FeedNewestFirst(s: Store, session: Option<SessionUser>)
    requires Issued(s.posts, PostId, s.nextPostId)
    ensures var feed := ListPosts(s, session).body.feed;
      forall i, j :: 0 <= i < j < |feed| ==> feed[i].post.id > feed[j].post.id
  {
    var keep := (p: Post) => HasAuthor(s.users, p.userId);
    var kept := Filter(s.posts, keep);
    FilterAscending(s.posts, keep, PostId, s.nextPostId);
    var joined := JoinPosts(s.posts, s.users);
    assert forall k :: 0 <= k < |joined| ==> joined[k].post == kept[k];
  }

  /** The comments of `postId` joined with their authors, in rowid order. */
  function JoinComments(comments: seq<Comment>, users: seq<User>, postId: int): seq<CommentView> {
    var kept := Filter(comments, (c: Comment) => c.postId == postId && HasAuthor(users, c.userId));
    seq(|kept|, k requires 0 <= k < |kept| => ViewComment(users, kept[k]))
  }

  /** GET /api/comments/:post_id: the comments with that post id whose author exists,
      `ORDER BY comments.id ASC`. */
  function ListComments(s: Store, session: Option<SessionUser>, postId: int): (r: Reply)
    ensures r.status == StatusOk && r.store == s && r.session == session && r.body.Comments?
    ensures forall k :: 0 <= k < |r.body.thread| ==>
              var c := r.body.thread[k].comment;
              c in s.comments && c.postId == postId && HasAuthor(s.users, c.userId)
              && r.body.thread[k] == ViewComment(s.users, c)
    ensures forall k :: 0 <= k < |s.comments| && s.comments[k].postId == postId
                        && HasAuthor(s.users, s.comments[k].userId) ==>
              ViewComment(s.users, s.comments[k]) in r.body.thread
  {
    JoinCommentsComplete(s.comments, s.users, postId);
    Reply(StatusOk, Comments(JoinComments(s.comments, s.users, postId)), s, session)
  }

  /** Every comment on the post with an author shows up in the join. */
  lemma JoinCommentsComplete(comments: seq<Comment>, users: seq<User>, postId: int)
    ensures forall k :: 0 <= k < |comments| && comments[k].postId == postId
                        && HasAuthor(users, comments[k].userId) ==>
              ViewComment(users, comments[k]) in JoinComments(comments, users, postId)
  {
    var kept := Filter(comments, (c: Comment) => c.postId == postId && HasAuthor(users, c.userId));
    var joined := JoinComments(comments, users, postId);
    forall k | 0 <= k < |comments| && comments[k].postId == postId && HasAuthor(users, comments[k].userId)
      ensures ViewComment(users, comments[k]) in joined
    {
      var j :| 0 <= j < |kept| && kept[j] == comments[k];
      assert joined[j] == ViewComment(users, comments[k]);
    }
  }

  /** In a store whose comments ascend by id, a post's comments come oldest first. */
  lemma {:induction false} ThreadOldestFirst(s: Store, session: Option<SessionUser>, postId: int)
    requires Issued(s.comments, CommentId, s.nextCommentId)
    ensures var thread := ListComments(s, session, postId).body.thread;
      forall i, j :: 0 <= i < j < |thread| ==> thread[i].comment.id < thread[j].comment.id
  {
    var keep := (c: Comment) => c.postId == postId && HasAuthor(s.users, c.userId);
    var kept := Filter(s.comments, keep);
    FilterAscending(s.comments, keep, CommentId, s.nextCommentId);
    var thread := JoinComments(s.comments, s.users, postId);
    assert forall k :: 0 <= k < |thread| ==> thread[k].comment == kept[k];
  }

  /** The tombstone a terminated account's profile shows. */
  const Tombstone := Profile("Account Deleted", Some(""), [])

  /** GET /api/user/:username: 404 for an unknown name, the tombstone for a terminated
      account, else the account's name, picture and posts (`SELECT * FROM posts WHERE
      user_id = ?`, in rowid order). */
  function UserProfile(s: Store, session: Option<SessionUser>, username: string): (r: Reply)
    ensures r.store == s && r.session == session
    ensures !Registered(s.users, username) ==>
              r.status == StatusNotFound && r.body == Profile("User not found", None, [])
    ensures IsTerminated(s, username) ==> r.status == StatusOk && r.body == Tombstone
    ensures Registered(s.users, username) && !IsTerminated(s, username) ==>
              && r.status == StatusOk && r.body.Profile? && r.body.name == username
              && exists i :: 0 <= i < |s.users| && s.users[i].username == username && !s.users[i].terminated
                   && r.body.picture == Some(s.users[i].pfp)
                   && (forall k :: 0 <= k < |r.body.authored| ==>
                         r.body.authored[k] in s.posts && r.body.authored[k].userId == s.users[i].id)
                   && (forall k :: 0 <= k < |s.posts| && s.posts[k].userId == s.users[i].id ==>
                         s.posts[k] in r.body.authored)
  {
    match FindUser(s.users, username)
    case None => Reply(StatusNotFound, Profile("User not found", None, []), s, session)
    case Some(i) =>
      var user := s.users[i];
      if user.terminated then Reply(StatusOk, Tombstone, s, session)
      else Reply(StatusOk, Profile(user.username, Some(user.pfp), Filter(s.posts, (p: Post) => p.userId == user.id)), s, session)
  }
}
