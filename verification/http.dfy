/** What a handler sees of the HTTP exchange: the logged-in session user, and
    the status and JSON body it answers with.
 */
module Http {
  import opened Tables

  const StatusOk := 200
  const StatusBadRequest := 400
  const StatusUnauthorized := 401
  const StatusForbidden := 403
  const StatusNotFound := 404

  /** `req.session.user` as login stores it. */
  datatype SessionUser = SessionUser(id: int, username: string, isMod: bool)

  /** A row of the post list: `posts.*` joined with the author's `username` and `pfp`. */
  datatype PostView = PostView(post: Post, username: string, pfp: string)

  /** A row of a comment list: `comments.*` joined with the author's `username` and `pfp`. */
  datatype CommentView = CommentView(comment: Comment, username: string, pfp: string)

  /** The JSON bodies the handlers send. */
  datatype Body =
    | Success                                 // { success: true }
    | Terminated(message: string)             // { terminated: true, message }
    | Error(error: string)                    // { error }
    | CurrentUser(user: Option<SessionUser>)  // the session user, or null
    | Posts(feed: seq<PostView>)
    | Comments(thread: seq<CommentView>)
    | Profile(name: string, picture: Option<string>, authored: seq<Post>)

  /** The outcome of one request: the response, the database after it, and the
      client's session after it. */
  datatype Reply = Reply(status: int, body: Body, store: Store, session: Option<SessionUser>)

  /** The response `res.status(401).json({ error: "Not logged in" })` of the write endpoints. */
  function NotLoggedIn(s: Store, session: Option<SessionUser>): Reply {
    Reply(StatusUnauthorized, Error("Not logged in"), s, session)
  }
}
